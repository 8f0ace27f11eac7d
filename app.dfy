/**
 * The page's state record and its event handlers: submit (add or save),
 * edit, delete, search and sort, each a method on one store object. The
 * `stored` field stands for the browser storage entry under the key
 * "tickets", rewritten after every change to the collection.
 */
module App {
  import opened Tickets
  import opened Seqs
  import opened Store
  import opened Validation
  import opened View

  class TicketStore {
    var tickets: seq<Ticket>
    var nextId: nat
    var editingId: Option<nat>
    var searchQuery: string
    var sortBy: string
    var stored: Option<seq<Ticket>>

    /** Ids are distinct and below the counter. */
    ghost predicate Valid()
      reads this
    {
      IdsValid(tickets, nextId)
    }

    /**
     * Page start: the state record's initial values, then the collection is
     * read back from storage. The counter is restored past the largest
     * stored id (see `Store.ReloadThenAddDuplicatesId` for the code as
     * written, which leaves it at 1).
     */
    constructor Start(persisted: Option<seq<Ticket>>)
      ensures tickets == Loaded(persisted) && nextId == RestoredNextId(tickets)
      ensures editingId == None && searchQuery == "" && sortBy == ""
      ensures stored == persisted
      ensures DistinctIds(tickets) ==> Valid()
    {
      tickets := Loaded(persisted);
      nextId := RestoredNextId(Loaded(persisted));
      editingId := None;
      searchQuery := "";
      sortBy := "";
      stored := persisted;
      if DistinctIds(Loaded(persisted)) {
        RestoredIdsValid(Loaded(persisted));
      }
    }

    /** Writes the whole collection to storage. */
    method Save()
      modifies this`stored
      ensures stored == Some(tickets)
    {
      stored := Some(tickets);
    }

    /** Appends a ticket under the current counter, increments the counter, and saves. */
    method AddItem(f: Fields)
      modifies this`tickets, this`nextId, this`stored
      ensures tickets == Appended(old(tickets), old(nextId), f)
      ensures nextId == old(nextId) + 1
      ensures stored == Some(tickets)
      ensures old(Valid()) ==> Valid()
    {
      if Valid() {
        AppendedKeepsIds(tickets, nextId, f);
      }
      tickets := tickets + [MakeTicket(nextId, f)];
      nextId := nextId + 1;
      Save();
    }

    /**
     * Looks up the first ticket with id `id` (its fields go into the form)
     * and, only when there is one, enters edit mode for it. The collection
     * is never touched.
     */
    method EditItem(id: nat) returns (shown: Option<Ticket>)
      modifies this`editingId
      ensures shown.None? <==> forall i :: 0 <= i < |tickets| ==> tickets[i].id != id
      ensures shown.Some? ==> shown.value.id == id && shown.value == tickets[FindIndex(tickets, HasId(id))]
      ensures Valid() && shown.Some? ==>
        forall i :: 0 <= i < |tickets| && tickets[i].id == id ==> tickets[i] == shown.value
      ensures editingId == if shown.Some? then Some(id) else old(editingId)
    {
      var index := FindIndex(tickets, HasId(id));
      if index == -1 {
        forall i | 0 <= i < |tickets| ensures tickets[i].id != id {
          assert !HasId(id)(tickets[i]);
        }
        return None;
      }
      shown := Some(tickets[index]);
      editingId := Some(id);
      assert tickets[index].id == id;
    }

    /**
     * Overwrites the first ticket whose id is the one being edited, keeping
     * that id, and saves; when edit mode is off or no such ticket remains,
     * nothing changes and nothing is saved.
     */
    method UpdateItem(f: Fields)
      modifies this`tickets, this`stored
      ensures editingId.None? ==> tickets == old(tickets) && stored == old(stored)
      ensures editingId.Some? && (forall i :: 0 <= i < |old(tickets)| ==> old(tickets)[i].id != editingId.value) ==>
        tickets == old(tickets) && stored == old(stored)
      ensures editingId.Some? && (exists i :: 0 <= i < |old(tickets)| && old(tickets)[i].id == editingId.value) ==>
        tickets == Replaced(old(tickets), editingId.value, f) && stored == Some(tickets)
      ensures old(Valid()) ==> Valid()
    {
      if editingId.None? {
        return;
      }
      var id := editingId.value;
      var index := FindIndex(tickets, HasId(id));
      if index == -1 {
        return;
      }
      if Valid() {
        ReplacedKeepsIds(tickets, nextId, id, f);
      }
      tickets := tickets[index := MakeTicket(id, f)];
      Save();
    }

    /** Drops every ticket with id `id` and saves; edit mode is left as it was. */
    method DeleteItem(id: nat)
      modifies this`tickets, this`stored
      ensures tickets == WithoutId(old(tickets), id)
      ensures old(Valid()) ==> forall k :: 0 <= k < |old(tickets)| && old(tickets)[k].id == id ==>
        tickets == old(tickets)[..k] + old(tickets)[k + 1..]
      ensures stored == Some(tickets)
      ensures old(Valid()) ==> Valid()
    {
      if Valid() {
        forall k | 0 <= k < |tickets| && tickets[k].id == id
          ensures WithoutId(tickets, id) == tickets[..k] + tickets[k + 1..]
        {
          WithoutPresentId(tickets, id, k);
        }
      }
      if Valid() {
        WithoutIdKeepsIds(tickets, nextId, id);
      }
      tickets := Filter(tickets, LacksId(id));
      Save();
    }

    /**
     * The submit handler. A rejected form changes nothing but the error
     * messages. An accepted one saves over the edited ticket when edit mode
     * is on and adds a ticket otherwise, saves, and leaves edit mode.
     */
    method Submit(d: FormData) returns (valid: bool, errors: map<Field, string>)
      modifies this`tickets, this`nextId, this`editingId, this`stored
      ensures valid <==> Acceptable(d)
      ensures forall f :: f in errors <==> Violates(d, f)
      ensures !valid ==>
        tickets == old(tickets) && nextId == old(nextId) && editingId == old(editingId) && stored == old(stored)
      ensures valid && old(editingId).None? ==>
        tickets == Appended(old(tickets), old(nextId), FieldsOf(d)) && nextId == old(nextId) + 1
      ensures valid && old(editingId).Some? ==>
        tickets == Replaced(old(tickets), old(editingId).value, FieldsOf(d)) && nextId == old(nextId)
      ensures valid ==> editingId == None && stored == Some(tickets)
      ensures old(Valid()) ==> Valid()
    {
      valid, errors := Validate(d);
      if !valid {
        return;
      }
      var f := FieldsOf(d);
      if editingId.Some? {
        ghost var id := editingId.value;
        if FindIndex(tickets, HasId(id)) == -1 {
          ReplacedAbsent(tickets, id, f);
        }
        UpdateItem(f);
      } else {
        AddItem(f);
      }
      Save();
      editingId := None;
    }

    /** The search box's input handler. */
    method SetSearchQuery(query: string)
      modifies this`searchQuery
      ensures searchQuery == query
    {
      searchQuery := query;
    }

    /** The sort select's change handler. */
    method SetSortBy(key: string)
      modifies this`sortBy
      ensures sortBy == key
    {
      sortBy := key;
    }

    /**
     * Builds the table rows, one per shown ticket in display order, from a
     * copy of the collection; the store itself is left untouched.
     */
    method Render() returns (rows: seq<Row>)
      ensures |rows| == |Shown(tickets, searchQuery, sortBy)|
      ensures forall k :: 0 <= k < |rows| ==> rows[k] == RowOf(Shown(tickets, searchQuery, sortBy)[k])
    {
      var toShow := Shown(tickets, searchQuery, sortBy);
      rows := [];
      var i := 0;
      while i < |toShow|
        invariant 0 <= i <= |toShow|
        invariant rows == Rows(toShow)[..i]
      {
        rows := rows + [RowOf(toShow[i])];
        i := i + 1;
      }
    }
  }

  /** Printer scenario: a first ticket gets id 1 and shows with the catalog names. */
  lemma PrinterScenario()
    ensures Appended([], InitialNextId, Fields("Printer broken", 1, High, "Printer on 3rd floor jammed", 2))
      == [Ticket(1, "Printer broken", 1, High, "Printer on 3rd floor jammed", 2)]
    ensures RowOf(Ticket(1, "Printer broken", 1, High, "Printer on 3rd floor jammed", 2))
      == Row(1, "Printer broken", Some("Open"), High, Some("Olena Koval"), "Printer on 3rd floor jammed")
  {
    StatusNames(1);
    UserNames(2);
  }

  /** Deleting the only ticket leaves nothing to show, whatever the search and sort. */
  lemma DeleteOnlyTicketShowsNothing(t: Ticket, query: string, sortBy: string)
    ensures WithoutId([t], t.id) == []
    ensures Shown(WithoutId([t], t.id), query, sortBy) == []
  {
    WithoutIdSpec([t], t.id, t);
  }
}
