/**
 * The ticket collection's operations as functions of the collection: append
 * under a fresh id, replace the first ticket with a given id, drop every
 * ticket with a given id, and rebuild the collection from storage. The class
 * in module App applies them to its fields.
 */
module Store {
  import opened Tickets
  import opened Seqs

  function HasId(id: nat): Ticket -> bool {
    (t: Ticket) => t.id == id
  }

  function LacksId(id: nat): Ticket -> bool {
    (t: Ticket) => t.id != id
  }

  predicate IdsBelow(ts: seq<Ticket>, n: nat) {
    forall i :: 0 <= i < |ts| ==> ts[i].id < n
  }

  predicate DistinctIds(ts: seq<Ticket>) {
    forall i, j :: 0 <= i < j < |ts| ==> ts[i].id != ts[j].id
  }

  /** The store invariant: ids are pairwise distinct and all below the next id to hand out. */
  predicate IdsValid(ts: seq<Ticket>, nextId: nat) {
    IdsBelow(ts, nextId) && DistinctIds(ts)
  }

  /** The collection after adding a ticket under id `nextId`. */
  function Appended(ts: seq<Ticket>, nextId: nat, f: Fields): seq<Ticket> {
    ts + [MakeTicket(nextId, f)]
  }

  /** The collection after overwriting the first ticket with id `id`; unchanged when there is none. */
  function Replaced(ts: seq<Ticket>, id: nat, f: Fields): seq<Ticket> {
    var i := FindIndex(ts, HasId(id));
    if i == -1 then ts else ts[i := MakeTicket(id, f)]
  }

  /** The collection after deleting id `id`. */
  function WithoutId(ts: seq<Ticket>, id: nat): seq<Ticket> {
    Filter(ts, LacksId(id))
  }

  /** Adding keeps every earlier ticket in place and puts exactly one new ticket, carrying the old next id, at the end. */
  lemma AppendedSpec(ts: seq<Ticket>, nextId: nat, f: Fields)
    ensures |Appended(ts, nextId, f)| == |ts| + 1
    ensures Appended(ts, nextId, f)[..|ts|] == ts
    ensures Appended(ts, nextId, f)[|ts|] == MakeTicket(nextId, f)
  {
  }

  /** Adding under the next id and incrementing it preserves the store invariant. */
  lemma AppendedKeepsIds(ts: seq<Ticket>, nextId: nat, f: Fields)
    requires IdsValid(ts, nextId)
    ensures IdsValid(Appended(ts, nextId, f), nextId + 1)
  {
  }

  /**
   * When some ticket has id `id`, the first one is overwritten by the new
   * fields under the same id and every other position is untouched.
   */
  lemma ReplacedAtFirstMatch(ts: seq<Ticket>, id: nat, f: Fields, k: nat)
    requires k < |ts| && ts[k].id == id
    requires forall j :: 0 <= j < k ==> ts[j].id != id
    ensures |Replaced(ts, id, f)| == |ts|
    ensures Replaced(ts, id, f)[k] == MakeTicket(id, f)
    ensures forall j :: 0 <= j < |ts| && j != k ==> Replaced(ts, id, f)[j] == ts[j]
  {
    assert HasId(id)(ts[k]);
  }

  /** When no ticket has id `id`, the collection is unchanged. */
  lemma ReplacedAbsent(ts: seq<Ticket>, id: nat, f: Fields)
    requires forall j :: 0 <= j < |ts| ==> ts[j].id != id
    ensures Replaced(ts, id, f) == ts
  {
  }

  /** Replacing keeps each position's id, so it preserves the store invariant. */
  lemma ReplacedKeepsIds(ts: seq<Ticket>, nextId: nat, id: nat, f: Fields)
    requires IdsValid(ts, nextId)
    ensures IdsValid(Replaced(ts, id, f), nextId)
  {
    var i := FindIndex(ts, HasId(id));
    if i != -1 {
      assert HasId(id)(ts[i]);
      var r := Replaced(ts, id, f);
      assert forall j :: 0 <= j < |ts| ==> r[j].id == ts[j].id;
    }
  }

  /**
   * Deleting leaves no ticket with that id and keeps every other ticket as
   * often as it occurred; order is kept since filtering distributes over `+`.
   */
  lemma WithoutIdSpec(ts: seq<Ticket>, id: nat, t: Ticket)
    ensures forall i :: 0 <= i < |WithoutId(ts, id)| ==> WithoutId(ts, id)[i].id != id
    ensures multiset(WithoutId(ts, id))[t] == if t.id == id then 0 else multiset(ts)[t]
  {
    FilterCount(ts, LacksId(id), t);
  }

  /** Deleting the same id twice is deleting it once. */
  lemma WithoutIdIdempotent(ts: seq<Ticket>, id: nat)
    ensures WithoutId(WithoutId(ts, id), id) == WithoutId(ts, id)
  {
    FilterIdempotent(ts, LacksId(id));
  }

  /** Deleting an id no ticket carries changes nothing. */
  lemma WithoutAbsentId(ts: seq<Ticket>, id: nat)
    requires forall i :: 0 <= i < |ts| ==> ts[i].id != id
    ensures WithoutId(ts, id) == ts
  {
    FilterKeepsAll(ts, LacksId(id));
  }

  /** With distinct ids, deleting an id that is present removes exactly its one position. */
  lemma WithoutPresentId(ts: seq<Ticket>, id: nat, k: nat)
    requires DistinctIds(ts)
    requires k < |ts| && ts[k].id == id
    ensures WithoutId(ts, id) == ts[..k] + ts[k + 1..]
  {
    assert ts == ts[..k] + ([ts[k]] + ts[k + 1..]);
    FilterConcat(ts[..k], [ts[k]] + ts[k + 1..], LacksId(id));
    FilterConcat([ts[k]], ts[k + 1..], LacksId(id));
    FilterKeepsAll(ts[..k], LacksId(id));
    FilterKeepsAll(ts[k + 1..], LacksId(id));
  }

  /** Deleting preserves the store invariant. */
  lemma {:induction false} WithoutIdKeepsIds(ts: seq<Ticket>, nextId: nat, id: nat)
    requires IdsValid(ts, nextId)
    ensures IdsValid(WithoutId(ts, id), nextId)
  {
    var r := WithoutId(ts, id);
    forall i | 0 <= i < |r| ensures r[i].id < nextId {
      FilterMembership(ts, LacksId(id), r[i]);
    }
    forall i, j | 0 <= i < j < |r| ensures r[i].id != r[j].id {
      if ts != [] {
        WithoutIdTail(ts, nextId, id, i, j);
      }
    }
  }

  lemma {:induction false} WithoutIdTail(ts: seq<Ticket>, nextId: nat, id: nat, i: nat, j: nat)
    requires IdsValid(ts, nextId)
    requires i < j < |WithoutId(ts, id)|
    ensures WithoutId(ts, id)[i].id != WithoutId(ts, id)[j].id
    decreases |ts|
  {
    var rest := WithoutId(ts[1..], id);
    assert IdsValid(ts[1..], nextId);
    if LacksId(id)(ts[0]) {
      assert WithoutId(ts, id) == [ts[0]] + rest;
      if i == 0 {
        FilterMembership(ts[1..], LacksId(id), rest[j - 1]);
      } else {
        WithoutIdTail(ts[1..], nextId, id, i - 1, j - 1);
      }
    } else {
      WithoutIdTail(ts[1..], nextId, id, i, j);
    }
  }

  /** The largest id in the collection, 0 for an empty one. */
  function MaxId(ts: seq<Ticket>): (m: nat)
    ensures forall i :: 0 <= i < |ts| ==> ts[i].id <= m
    ensures ts == [] ==> m == 0
  {
    if ts == [] then 0
    else
      var m := MaxId(ts[1..]);
      if ts[0].id > m then ts[0].id else m
  }

  /** The collection read back from storage: the stored list, or an empty one when the key is absent. */
  function Loaded(stored: Option<seq<Ticket>>): seq<Ticket> {
    if stored.Some? then stored.value else []
  }

  /** The counter's value when the page starts; loading does not touch it. */
  const InitialNextId: nat := 1

  /**
   * As written, loading restores the tickets but leaves the counter at its
   * initial value, so the first ticket added after a reload reuses the id of
   * the first stored ticket.
   */
  lemma ReloadThenAddDuplicatesId(f: Fields, stored: Ticket)
    requires stored.id == 1
    ensures !IdsValid(Loaded(Some([stored])), InitialNextId)
    ensures !DistinctIds(Appended(Loaded(Some([stored])), InitialNextId, f))
  {
    var r := Appended(Loaded(Some([stored])), InitialNextId, f);
    assert r[0].id == r[1].id;
  }

  /** The corrected counter after a load: one past the largest stored id (1 for an empty store). */
  function RestoredNextId(ts: seq<Ticket>): (n: nat)
    ensures IdsBelow(ts, n)
    ensures ts == [] ==> n == InitialNextId
  {
    MaxId(ts) + 1
  }

  /** A stored collection with distinct ids satisfies the store invariant under the restored counter. */
  lemma RestoredIdsValid(ts: seq<Ticket>)
    requires DistinctIds(ts)
    ensures IdsValid(ts, RestoredNextId(ts))
  {
  }
}
