/**
 * The list the table shows, recomputed on every render from a copy of the
 * collection: search filter, optional priority sort, and catalog lookups.
 */
module View {
  import opened Tickets
  import opened Seqs
  import opened Text

  /** A ticket's subject contains the query, both lower-cased; the query is used untrimmed. */
  predicate Matches(t: Ticket, query: string) {
    Contains(Lower(t.subject), Lower(query))
  }

  function MatchesQuery(query: string): Ticket -> bool {
    (t: Ticket) => Matches(t, query)
  }

  /** The search step: a query that trims to nothing keeps every ticket. */
  function SearchFilter(ts: seq<Ticket>, query: string): seq<Ticket> {
    if Trim(query) == [] then ts else Filter(ts, MatchesQuery(query))
  }

  /** A blank query keeps the list as it is. */
  lemma SearchBlankKeepsAll(ts: seq<Ticket>, query: string)
    requires IsBlank(query)
    ensures SearchFilter(ts, query) == ts
  {
    TrimEmptyIffBlank(query);
  }

  /**
   * A non-blank query keeps exactly the matching tickets, each as often as it
   * occurs, and drops every other one.
   */
  lemma SearchNonBlankExact(ts: seq<Ticket>, query: string, t: Ticket)
    requires !IsBlank(query)
    ensures multiset(SearchFilter(ts, query))[t] == if Matches(t, query) then multiset(ts)[t] else 0
  {
    TrimEmptyIffBlank(query);
    FilterCount(ts, MatchesQuery(query), t);
  }

  /** The search step keeps relative order: it distributes over concatenation. */
  lemma SearchKeepsOrder(a: seq<Ticket>, b: seq<Ticket>, query: string)
    ensures SearchFilter(a + b, query) == SearchFilter(a, query) + SearchFilter(b, query)
  {
    FilterConcat(a, b, MatchesQuery(query));
  }

  /** The sort key: High first, then Medium, then Low. */
  function Rank(p: Priority): nat {
    match p
    case High => 1
    case Medium => 2
    case Low => 3
  }

  function HasPriority(p: Priority): Ticket -> bool {
    (t: Ticket) => t.priority == p
  }

  predicate SortedByRank(s: seq<Ticket>) {
    forall i, j :: 0 <= i < j < |s| ==> Rank(s[i].priority) <= Rank(s[j].priority)
  }

  /** Inserts `t` before the first ticket whose rank is not smaller than its own. */
  function Insert(t: Ticket, s: seq<Ticket>): seq<Ticket> {
    if s == [] then [t]
    else if Rank(t.priority) <= Rank(s[0].priority) then [t] + s
    else [s[0]] + Insert(t, s[1..])
  }

  /** The comparator sort by rank; a ticket goes before later ones of equal rank, so the sort is stable. */
  function SortByPriority(s: seq<Ticket>): seq<Ticket> {
    if s == [] then [] else Insert(s[0], SortByPriority(s[1..]))
  }

  lemma {:induction false} InsertPermutes(t: Ticket, s: seq<Ticket>)
    ensures multiset(Insert(t, s)) == multiset(s) + multiset{t}
  {
    if s != [] && Rank(s[0].priority) < Rank(t.priority) {
      InsertPermutes(t, s[1..]);
      assert s == [s[0]] + s[1..];
    }
  }

  /** Every ticket of `Insert(t, s)` is `t` or a ticket of `s`. */
  lemma {:induction false} InsertMembers(t: Ticket, s: seq<Ticket>)
    ensures forall x :: x in Insert(t, s) ==> x == t || x in s
  {
    if s != [] && Rank(s[0].priority) < Rank(t.priority) {
      InsertMembers(t, s[1..]);
    }
  }

  lemma SortedCons(x: Ticket, rest: seq<Ticket>)
    requires SortedByRank(rest)
    requires forall k :: 0 <= k < |rest| ==> Rank(x.priority) <= Rank(rest[k].priority)
    ensures SortedByRank([x] + rest)
  {
    var r := [x] + rest;
    forall i, j | 0 <= i < j < |r| ensures Rank(r[i].priority) <= Rank(r[j].priority) {
      if i == 0 {
        assert r[j] == rest[j - 1];
      } else {
        assert r[i] == rest[i - 1] && r[j] == rest[j - 1];
      }
    }
  }

  lemma {:induction false} InsertSorted(t: Ticket, s: seq<Ticket>)
    requires SortedByRank(s)
    ensures SortedByRank(Insert(t, s))
  {
    if s == [] {
    } else if Rank(t.priority) <= Rank(s[0].priority) {
      SortedCons(t, s);
    } else {
      var rest := Insert(t, s[1..]);
      assert SortedByRank(s[1..]);
      InsertSorted(t, s[1..]);
      InsertMembers(t, s[1..]);
      forall k | 0 <= k < |rest| ensures Rank(s[0].priority) <= Rank(rest[k].priority) {
        assert rest[k] in rest;
      }
      SortedCons(s[0], rest);
    }
  }

  lemma FilterSingleton(x: Ticket, q: Ticket -> bool)
    ensures Filter([x], q) == if q(x) then [x] else []
  {
    assert [x][1..] == [];
  }

  /** Insertion leaves the order among tickets of any one priority as in `[t] + s`. */
  lemma {:induction false} InsertStable(t: Ticket, s: seq<Ticket>, p: Priority)
    ensures Filter(Insert(t, s), HasPriority(p)) == Filter([t] + s, HasPriority(p))
  {
    if s != [] && Rank(s[0].priority) < Rank(t.priority) {
      var q := HasPriority(p);
      var rest := s[1..];
      InsertStable(t, rest, p);
      FilterConcat([s[0]], Insert(t, rest), q);
      FilterConcat([t], rest, q);
      FilterConcat([s[0]], rest, q);
      FilterConcat([t], s, q);
      assert s == [s[0]] + rest;
      FilterSingleton(s[0], q);
      FilterSingleton(t, q);
      // t and s[0] differ in rank, so at most one of them has priority p
      assert Filter([s[0]], q) + Filter([t], q) == Filter([t], q) + Filter([s[0]], q);
    }
  }

  /** Sorting by priority permutes the list. */
  lemma {:induction false} SortPermutes(s: seq<Ticket>)
    ensures multiset(SortByPriority(s)) == multiset(s)
  {
    if s != [] {
      SortPermutes(s[1..]);
      InsertPermutes(s[0], SortByPriority(s[1..]));
      assert s == [s[0]] + s[1..];
    }
  }

  /** Sorting by priority leaves ranks non-decreasing. */
  lemma {:induction false} SortSorted(s: seq<Ticket>)
    ensures SortedByRank(SortByPriority(s))
  {
    if s != [] {
      SortSorted(s[1..]);
      InsertSorted(s[0], SortByPriority(s[1..]));
    }
  }

  /** Sorting by priority keeps tickets of equal priority in their relative order. */
  lemma {:induction false} SortStable(s: seq<Ticket>, p: Priority)
    ensures Filter(SortByPriority(s), HasPriority(p)) == Filter(s, HasPriority(p))
  {
    if s != [] {
      SortStable(s[1..], p);
      InsertStable(s[0], SortByPriority(s[1..]), p);
      FilterConcat([s[0]], SortByPriority(s[1..]), HasPriority(p));
      FilterConcat([s[0]], s[1..], HasPriority(p));
      assert s == [s[0]] + s[1..];
    }
  }

  /** The tickets to show, in display order: search, then sort when the sort key is "priority". */
  function Shown(ts: seq<Ticket>, query: string, sortBy: string): seq<Ticket> {
    var found := SearchFilter(ts, query);
    if sortBy == "priority" then SortByPriority(found) else found
  }

  /**
   * With the priority key the shown list is a sorted, stable permutation of
   * the search result; with any other key it is the search result itself.
   */
  lemma ShownSpec(ts: seq<Ticket>, query: string, sortBy: string)
    ensures multiset(Shown(ts, query, sortBy)) == multiset(SearchFilter(ts, query))
    ensures sortBy == "priority" ==> SortedByRank(Shown(ts, query, sortBy))
    ensures sortBy == "priority" ==> forall p :: Filter(Shown(ts, query, sortBy), HasPriority(p)) == Filter(SearchFilter(ts, query), HasPriority(p))
    ensures sortBy != "priority" ==> Shown(ts, query, sortBy) == SearchFilter(ts, query)
  {
    var found := SearchFilter(ts, query);
    if sortBy == "priority" {
      SortPermutes(found);
      SortSorted(found);
      forall p ensures Filter(SortByPriority(found), HasPriority(p)) == Filter(found, HasPriority(p)) {
        SortStable(found, p);
      }
    }
  }

  /** The name of the first catalog entry with id `id`, or `None` (rendered as "undefined"). */
  function NameOf(catalog: seq<CatalogEntry>, id: nat): Option<string> {
    if catalog == [] then None
    else if catalog[0].id == id then Some(catalog[0].name)
    else NameOf(catalog[1..], id)
  }

  /** A lookup gives no name iff no entry has the id, and otherwise the name of the first entry that has it. */
  lemma {:induction false} NameOfSpec(catalog: seq<CatalogEntry>, id: nat)
    ensures NameOf(catalog, id).None? <==> forall i :: 0 <= i < |catalog| ==> catalog[i].id != id
    ensures NameOf(catalog, id).Some? ==>
      exists i :: 0 <= i < |catalog| && catalog[i].id == id && catalog[i].name == NameOf(catalog, id).value
        && forall j :: 0 <= j < i ==> catalog[j].id != id
  {
    if catalog != [] && catalog[0].id != id {
      NameOfSpec(catalog[1..], id);
      if NameOf(catalog, id).Some? {
        var i :| 0 <= i < |catalog| - 1 && catalog[1..][i].id == id && catalog[1..][i].name == NameOf(catalog, id).value
          && forall j :: 0 <= j < i ==> catalog[1..][j].id != id;
        assert catalog[i + 1] == catalog[1..][i];
        forall j | 0 <= j < i + 1 ensures catalog[j].id != id {
          if j > 0 { assert catalog[j] == catalog[1..][j - 1]; }
        }
      }
    } else if catalog != [] {
      assert catalog[0].id == id;
    }
  }

  /** Status names resolve for ids 1 to 3 and nothing else. */
  lemma StatusNames(id: nat)
    ensures NameOf(Statuses, id) ==
      if id == 1 then Some("Open")
      else if id == 2 then Some("In Progress")
      else if id == 3 then Some("Closed")
      else None
  {
    assert NameOf(Statuses, id) == NameOf(Statuses[1..], id) || id == 1;
    assert NameOf(Statuses[1..], id) == NameOf(Statuses[2..], id) || id == 2;
    assert NameOf(Statuses[2..], id) == NameOf(Statuses[3..], id) || id == 3;
    assert Statuses[3..] == [];
  }

  /** User names resolve for ids 1 to 3 and nothing else. */
  lemma UserNames(id: nat)
    ensures NameOf(Users, id) ==
      if id == 1 then Some("Ivan Petrenko")
      else if id == 2 then Some("Olena Koval")
      else if id == 3 then Some("Pavlo Melnyk")
      else None
  {
    assert NameOf(Users, id) == NameOf(Users[1..], id) || id == 1;
    assert NameOf(Users[1..], id) == NameOf(Users[2..], id) || id == 2;
    assert NameOf(Users[2..], id) == NameOf(Users[3..], id) || id == 3;
    assert Users[3..] == [];
  }

  /** One table row, in column order. */
  datatype Row = Row(
    id: nat,
    subject: string,
    statusName: Option<string>,
    priority: Priority,
    authorName: Option<string>,
    message: string)

  function RowOf(t: Ticket): Row {
    Row(t.id, t.subject, NameOf(Statuses, t.statusId), t.priority, NameOf(Users, t.authorId), t.message)
  }

  /** The rows of a list of tickets, one per ticket, in the same order. */
  function Rows(ts: seq<Ticket>): seq<Row> {
    seq(|ts|, k requires 0 <= k < |ts| => RowOf(ts[k]))
  }
}
