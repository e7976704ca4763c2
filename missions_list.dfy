/** The mission list page: the batch of `missions(i)` reads for
    `i = 0 .. missionsCount() - 1` turned into display rows, narrowed by the
    search box and ordered by the chosen sort key. */
module MissionsList {

  import opened Wrappers
  import opened Text
  import opened MissionRecord

  /* ---------------- rows ---------------- */

  datatype ReadStatus = Success | Failure

  /** One entry of the batched read: its status and, on success, the
      mission tuple. */
  datatype ReadResult = ReadResult(status: ReadStatus, result: Option<Mission>)

  predicate Readable(r: ReadResult) {
    r.status == Success && r.result.Some?
  }

  /** What a mission card shows. */
  datatype Row = Row(
    id: nat,
    title: string,
    shortDesc: string,
    creator: Address,
    freelancer: Address,
    paymentAmount: nat,
    escrowedAmount: nat,
    status: nat,
    isFunded: bool)

  const DescLimit: nat := 50

  /** The description cut to its first fifty characters, with an ellipsis
      when something was cut. */
  function ShortDesc(d: string): (r: string)
    ensures |r| <= DescLimit + 1
    ensures |d| <= DescLimit ==> r == d
    ensures |d| > DescLimit ==> |r| == DescLimit + 1 && r[..DescLimit] == d[..DescLimit] && r[DescLimit] == '…'
  {
    if |d| > DescLimit then d[..DescLimit] + "…" else d
  }

  /** `title || "Mission #" + id`: a card never has an empty title. */
  function RowTitle(title: string, id: nat): (r: string)
    ensures r != ""
    ensures title != "" ==> r == title
    ensures title == "" ==> |r| > 9 && r[..9] == "Mission #" && r[9..] == NatToString(id)
  {
    if title != "" then title else "Mission #" + NatToString(id)
  }

  /** The row for the mission read at batch index `id`. */
  function ToRow(id: nat, m: Mission): (r: Row)
    ensures r.id == id
    ensures r.isFunded <==> m.escrowedAmount > 0
    ensures r.title == RowTitle(m.title, id) && r.shortDesc == ShortDesc(m.description)
    ensures r.creator == m.creator && r.freelancer == m.freelancer && r.status == m.status
    ensures r.paymentAmount == m.paymentAmount && r.escrowedAmount == m.escrowedAmount
  {
    Row(id, RowTitle(m.title, id), ShortDesc(m.description), m.creator, m.freelancer,
        m.paymentAmount, m.escrowedAmount, m.status, m.escrowedAmount > 0)
  }

  predicate IdsIncreasing(rows: seq<Row>) {
    forall i, j :: 0 <= i < j < |rows| ==> rows[i].id < rows[j].id
  }

  /** `x` is the row of the readable entry at index `x.id` of the batch. */
  predicate RowOf(raw: seq<ReadResult>, x: Row) {
    x.id < |raw| && Readable(raw[x.id]) && x == ToRow(x.id, raw[x.id].result.value)
  }

  /** Some row of `rows` has id `i`. */
  predicate HasId(rows: seq<Row>, i: nat) {
    exists k :: 0 <= k < |rows| && rows[k].id == i
  }

  /** The rows for the reads from index `from` on: one per readable entry,
      carrying that entry's index as its id, in index order. */
  function RowsFrom(raw: seq<ReadResult>, from: nat): (rows: seq<Row>)
    requires from <= |raw|
    ensures forall k :: 0 <= k < |rows| ==> from <= rows[k].id && RowOf(raw, rows[k])
    ensures IdsIncreasing(rows)
    ensures forall i :: from <= i < |raw| && Readable(raw[i]) ==> HasId(rows, i)
    decreases |raw| - from
  {
    if from == |raw| then []
    else
      var rest := RowsFrom(raw, from + 1);
      if Readable(raw[from]) then
        var x := ToRow(from, raw[from].result.value);
        PrependRow(raw, from, x, rest);
        [x] + rest
      else
        rest
  }

  lemma PrependRow(raw: seq<ReadResult>, from: nat, x: Row, rest: seq<Row>)
    requires from < |raw| && Readable(raw[from]) && x == ToRow(from, raw[from].result.value)
    requires forall k :: 0 <= k < |rest| ==> from + 1 <= rest[k].id && RowOf(raw, rest[k])
    requires IdsIncreasing(rest)
    requires forall i :: from + 1 <= i < |raw| && Readable(raw[i]) ==> HasId(rest, i)
    ensures var rows := [x] + rest;
      && (forall k :: 0 <= k < |rows| ==> from <= rows[k].id && RowOf(raw, rows[k]))
      && IdsIncreasing(rows)
      && (forall i :: from <= i < |raw| && Readable(raw[i]) ==> HasId(rows, i))
  {
    var rows := [x] + rest;
    forall k | 0 <= k < |rows| ensures from <= rows[k].id && RowOf(raw, rows[k]) {
      if k > 0 {
        assert rows[k] == rest[k - 1];
      }
    }
    forall i, j | 0 <= i < j < |rows| ensures rows[i].id < rows[j].id {
      assert rows[j] == rest[j - 1];
      if i > 0 {
        assert rows[i] == rest[i - 1];
      }
    }
    PrependKeepsIds(raw, from, x, rest);
  }

  lemma PrependKeepsIds(raw: seq<ReadResult>, from: nat, x: Row, rest: seq<Row>)
    requires from < |raw| && x.id == from
    requires forall i :: from + 1 <= i < |raw| && Readable(raw[i]) ==> HasId(rest, i)
    ensures forall i :: from <= i < |raw| && Readable(raw[i]) ==> HasId([x] + rest, i)
  {
    var rows := [x] + rest;
    assert rows[0] == x;
    assert HasId(rows, from);
    forall i | from + 1 <= i < |raw| && Readable(raw[i]) ensures HasId(rows, i) {
      var k :| 0 <= k < |rest| && rest[k].id == i;
      assert rows[k + 1] == rest[k];
    }
  }

  /** The `rows` array: unreadable entries dropped, and nothing at all while
      the batch has not been read. */
  function Rows(raw: Option<seq<ReadResult>>): seq<Row> {
    if raw.None? then [] else RowsFrom(raw.value, 0)
  }

  /* ---------------- search ---------------- */

  /** `query.trim().toLowerCase()`. */
  function Normalize(query: string): (q: string)
    ensures q == Trim(ToLower(query))
    ensures |q| <= |query|
  {
    TrimLowerCommute(query);
    ToLower(Trim(query))
  }

  /** The search matches the lower-cased title, short description or
      creator address of a row. */
  predicate Matches(x: Row, q: string) {
    || Contains(ToLower(x.title), q)
    || Contains(ToLower(x.shortDesc), q)
    || Contains(ToLower(x.creator), q)
  }

  /** `a` can be obtained from `b` by deleting elements. */
  predicate IsSubsequence(a: seq<Row>, b: seq<Row>)
    decreases |b|
  {
    a == [] || (b != [] && ((a[0] == b[0] && IsSubsequence(a[1..], b[1..])) || IsSubsequence(a, b[1..])))
  }

  /** `rows.filter(...)` with the matching predicate. */
  function KeepMatching(rows: seq<Row>, q: string): (r: seq<Row>)
    ensures forall x :: x in r <==> x in rows && Matches(x, q)
    ensures IsSubsequence(r, rows)
    ensures IdsIncreasing(rows) ==> IdsIncreasing(r)
  {
    if rows == [] then []
    else
      var rest := KeepMatching(rows[1..], q);
      assert forall x :: x in rows <==> x == rows[0] || x in rows[1..];
      if Matches(rows[0], q) then
        var r := [rows[0]] + rest;
        assert r[1..] == rest;
        assert IdsIncreasing(rows) ==> IdsIncreasing(r) by {
          if IdsIncreasing(rows) {
            forall j | 1 <= j < |r| ensures r[0].id < r[j].id {
              assert r[j] in rows[1..];
            }
          }
        }
        r
      else
        rest
  }

  /** A single row is kept exactly when it matches. */
  lemma KeepMatchingOne(x: Row, q: string)
    ensures KeepMatching([x], q) == if Matches(x, q) then [x] else []
  {
    assert [x][1..] == [];
  }

  /** The search distributes over concatenation; with `KeepMatchingOne` this
      fixes it as the order-preserving filter that keeps every matching
      occurrence. */
  lemma {:induction false} KeepMatchingAppend(a: seq<Row>, b: seq<Row>, q: string)
    ensures KeepMatching(a + b, q) == KeepMatching(a, q) + KeepMatching(b, q)
    decreases |a|
  {
    if a == [] {
      assert a + b == b;
    } else {
      assert (a + b)[0] == a[0];
      assert (a + b)[1..] == a[1..] + b;
      KeepMatchingAppend(a[1..], b, q);
    }
  }

  /** Each matching row is kept as many times as it occurs; a row that does
      not match is not kept at all. */
  lemma {:induction false} KeepMatchingCount(rows: seq<Row>, q: string, x: Row)
    ensures multiset(KeepMatching(rows, q))[x] == if Matches(x, q) then multiset(rows)[x] else 0
    decreases |rows|
  {
    if rows != [] {
      assert rows == [rows[0]] + rows[1..];
      KeepMatchingCount(rows[1..], q, x);
    }
  }

  /** The `filtered` array: every row when the trimmed query is empty,
      otherwise the rows that match it, in their original order. */
  function Filter(rows: seq<Row>, query: string): (r: seq<Row>)
    ensures Normalize(query) == [] ==> r == rows
    ensures Normalize(query) != [] ==> forall x :: x in r <==> x in rows && Matches(x, Normalize(query))
    ensures IsSubsequence(r, rows)
    ensures IdsIncreasing(rows) ==> IdsIncreasing(r)
  {
    var q := Normalize(query);
    if q == [] then
      SubsequenceRefl(rows);
      rows
    else
      KeepMatching(rows, q)
  }

  /** For a non-blank query, each matching row is listed as many times as
      it occurs and any other row not at all. */
  lemma FilterCount(rows: seq<Row>, query: string, x: Row)
    requires Normalize(query) != []
    ensures multiset(Filter(rows, query))[x] == if Matches(x, Normalize(query)) then multiset(rows)[x] else 0
  {
    KeepMatchingCount(rows, Normalize(query), x);
  }

  lemma {:induction false} SubsequenceRefl(s: seq<Row>)
    ensures IsSubsequence(s, s)
    decreases |s|
  {
    if s != [] {
      SubsequenceRefl(s[1..]);
    }
  }

  /** The search ignores letter case: two queries that agree once
      lower-cased select the same rows. */
  lemma FilterIgnoresCase(rows: seq<Row>, q1: string, q2: string)
    requires ToLower(q1) == ToLower(q2)
    ensures Filter(rows, q1) == Filter(rows, q2)
  {
    TrimLowerCommute(q1);
    TrimLowerCommute(q2);
  }

  /** A query made only of whitespace keeps every row. */
  lemma BlankQueryKeepsAll(rows: seq<Row>, query: string)
    requires AllSpace(query)
    ensures Filter(rows, query) == rows
  {
    TrimFactor(query);
  }

  /* ---------------- sort ---------------- */

  datatype SortKey = Newest | AmountDesc | ByStatus

  /** The quantity each sort key orders by, largest first. */
  function Key(x: Row, k: SortKey): int {
    match k
    case Newest => x.id
    case AmountDesc => x.paymentAmount
    case ByStatus => x.status
  }

  predicate SortedDesc(s: seq<Row>, k: SortKey) {
    forall i, j :: 0 <= i < j < |s| ==> Key(s[i], k) >= Key(s[j], k)
  }

  /** Puts `x`, which came before every element of `s`, in front of the
      first element whose key is not larger, as a stable sort does. */
  function Insert(x: Row, s: seq<Row>, k: SortKey): (r: seq<Row>)
    requires SortedDesc(s, k)
    ensures SortedDesc(r, k)
    ensures |r| == |s| + 1
    ensures multiset(r) == multiset(s) + multiset{x}
    ensures r[0] == x || (s != [] && r[0] == s[0])
  {
    if s == [] || Key(s[0], k) <= Key(x, k) then
      ConsSorted(x, s, k);
      [x] + s
    else
      var rest := Insert(x, s[1..], k);
      InsertBehindHead(x, s, rest, k);
      [s[0]] + rest
  }

  /** The step of `Insert` that keeps the head: `rest` is `x` inserted into
      the tail, and `x` sorts after the head. */
  lemma InsertBehindHead(x: Row, s: seq<Row>, rest: seq<Row>, k: SortKey)
    requires s != [] && SortedDesc(s, k) && Key(s[0], k) > Key(x, k)
    requires SortedDesc(rest, k)
    requires multiset(rest) == multiset(s[1..]) + multiset{x}
    requires rest[0] == x || (s[1..] != [] && rest[0] == s[1..][0])
    ensures SortedDesc([s[0]] + rest, k)
    ensures multiset([s[0]] + rest) == multiset(s) + multiset{x}
  {
    ConsSorted(s[0], rest, k);
    assert s == [s[0]] + s[1..];
  }

  /** A row whose key is at least the head's goes in front of a descending
      list without breaking the order. */
  lemma ConsSorted(y: Row, t: seq<Row>, k: SortKey)
    requires SortedDesc(t, k)
    requires t == [] || Key(y, k) >= Key(t[0], k)
    ensures SortedDesc([y] + t, k)
  {
    var r := [y] + t;
    forall i, j | 0 <= i < j < |r| ensures Key(r[i], k) >= Key(r[j], k) {
      assert r[j] == t[j - 1];
      if i > 0 {
        assert r[i] == t[i - 1];
      }
    }
  }

  /** A row that precedes every element of a stably ordered list goes in
      front of it without breaking the order. */
  lemma ConsStable(y: Row, t: seq<Row>, k: SortKey)
    requires StablyOrdered(t, k)
    requires forall m :: 0 <= m < |t| ==> Precedes(y, t[m], k)
    ensures StablyOrdered([y] + t, k)
  {
    var r := [y] + t;
    forall i, j | 0 <= i < j < |r| ensures Precedes(r[i], r[j], k) {
      assert r[j] == t[j - 1];
      if i > 0 {
        assert r[i] == t[i - 1];
      }
    }
  }

  /** `[...filtered].sort(cmp)` for the comparators `b.key - a.key`:
      a copy in descending key order. */
  function SortRows(s: seq<Row>, k: SortKey): (r: seq<Row>)
    ensures SortedDesc(r, k)
    ensures multiset(r) == multiset(s)
  {
    if s == [] then []
    else
      assert s == [s[0]] + s[1..];
      Insert(s[0], SortRows(s[1..], k), k)
  }

  /** Rows of equal key keep their relative order: when the input is in
      increasing id order, ties come out in increasing id order. */
  predicate StablyOrdered(s: seq<Row>, k: SortKey) {
    forall i, j :: 0 <= i < j < |s| ==> Precedes(s[i], s[j], k)
  }

  predicate Precedes(a: Row, b: Row, k: SortKey) {
    Key(a, k) > Key(b, k) || (Key(a, k) == Key(b, k) && a.id < b.id)
  }

  lemma {:induction false} InsertStable(x: Row, s: seq<Row>, k: SortKey)
    requires SortedDesc(s, k) && StablyOrdered(s, k)
    requires forall m :: 0 <= m < |s| ==> x.id < s[m].id
    ensures StablyOrdered(Insert(x, s, k), k)
    decreases |s|
  {
    if s != [] && Key(s[0], k) > Key(x, k) {
      InsertStable(x, s[1..], k);
      InsertBehind(x, s, k);
    } else {
      InsertInFront(x, s, k);
    }
  }

  lemma InsertInFront(x: Row, s: seq<Row>, k: SortKey)
    requires SortedDesc(s, k) && StablyOrdered(s, k)
    requires forall m :: 0 <= m < |s| ==> x.id < s[m].id
    requires s == [] || Key(s[0], k) <= Key(x, k)
    ensures StablyOrdered(Insert(x, s, k), k)
  {
    assert Insert(x, s, k) == [x] + s;
    forall m | 0 <= m < |s| ensures Precedes(x, s[m], k) {
      assert Key(s[m], k) <= Key(s[0], k);
    }
    ConsStable(x, s, k);
  }

  lemma InsertBehind(x: Row, s: seq<Row>, k: SortKey)
    requires SortedDesc(s, k) && StablyOrdered(s, k)
    requires s != [] && Key(s[0], k) > Key(x, k)
    requires StablyOrdered(Insert(x, s[1..], k), k)
    ensures StablyOrdered(Insert(x, s, k), k)
  {
    var rest := Insert(x, s[1..], k);
    assert Insert(x, s, k) == [s[0]] + rest;
    HeadPrecedesRest(x, s, k);
    forall m | 0 <= m < |rest| ensures Precedes(s[0], rest[m], k) {
      assert rest[m] in rest;
    }
    ConsStable(s[0], rest, k);
  }

  /** The head of a stably ordered list precedes everything inserting a
      lower-keyed row into its tail produces. */
  lemma HeadPrecedesRest(x: Row, s: seq<Row>, k: SortKey)
    requires StablyOrdered(s, k)
    requires s != [] && Key(s[0], k) > Key(x, k)
    requires SortedDesc(s[1..], k)
    ensures forall y :: y in Insert(x, s[1..], k) ==> Precedes(s[0], y, k)
  {
    var t := s[1..];
    var rest := Insert(x, t, k);
    forall y | y in rest ensures Precedes(s[0], y, k) {
      assert y in multiset(rest);
      if y != x {
        assert y in multiset(t);
        var m :| 0 <= m < |t| && t[m] == y;
        assert s[m + 1] == y;
      }
    }
  }

  lemma {:induction false} SortStable(s: seq<Row>, k: SortKey)
    requires IdsIncreasing(s)
    ensures StablyOrdered(SortRows(s, k), k)
    decreases |s|
  {
    if s != [] {
      SortStable(s[1..], k);
      var t := SortRows(s[1..], k);
      forall m | 0 <= m < |t| ensures s[0].id < t[m].id {
        assert t[m] in multiset(s[1..]);
      }
      InsertStable(s[0], t, k);
    }
  }

  /** With `newest` the list runs from the highest id to the lowest. */
  lemma NewestIsIdDescending(s: seq<Row>)
    requires IdsIncreasing(s)
    ensures forall i, j :: 0 <= i < j < |SortRows(s, Newest)| ==> SortRows(s, Newest)[i].id > SortRows(s, Newest)[j].id
  {
    SortStable(s, Newest);
  }

  /* ---------------- the memo ---------------- */

  /** The `missions` memo: rows, search, then sort. */
  function Missions(raw: Option<seq<ReadResult>>, query: string, k: SortKey): seq<Row> {
    SortRows(Filter(Rows(raw), query), k)
  }

  /** What the page lists: a permutation of the matching rows, in stable
      descending key order, each row being the card of a readable entry
      whose batch index is the row's id. */
  lemma MissionsSpec(raw: Option<seq<ReadResult>>, query: string, k: SortKey)
    ensures var r := Missions(raw, query, k);
      && multiset(r) == multiset(Filter(Rows(raw), query))
      && StablyOrdered(r, k)
      && forall x :: x in r ==>
        && raw.Some? && RowOf(raw.value, x)
        && (Normalize(query) != [] ==> Matches(x, Normalize(query)))
  {
    var rows := Rows(raw);
    var filtered := Filter(rows, query);
    SortStable(filtered, k);
    var r := SortRows(filtered, k);
    forall x | x in r
      ensures raw.Some? && RowOf(raw.value, x)
      ensures Normalize(query) != [] ==> Matches(x, Normalize(query))
    {
      assert x in multiset(filtered);
      FilteredRow(raw, query, x);
    }
  }

  /** A row that survives the search is a readable entry's card and, for a
      non-blank query, matches it. */
  lemma FilteredRow(raw: Option<seq<ReadResult>>, query: string, x: Row)
    requires x in Filter(Rows(raw), query)
    ensures raw.Some? && RowOf(raw.value, x)
    ensures Normalize(query) != [] ==> Matches(x, Normalize(query))
  {
    var rows := Rows(raw);
    SubsequenceMembers(Filter(rows, query), rows, x);
    var i :| 0 <= i < |rows| && rows[i] == x;
  }

  lemma {:induction false} SubsequenceMembers(a: seq<Row>, b: seq<Row>, x: Row)
    requires IsSubsequence(a, b) && x in a
    ensures x in b
    decreases |b|
  {
    if a[0] == b[0] && IsSubsequence(a[1..], b[1..]) {
      if x != a[0] {
        SubsequenceMembers(a[1..], b[1..], x);
      }
    } else {
      SubsequenceMembers(a, b[1..], x);
    }
  }

  /** Every readable entry of the batch has a row, whatever the sort key,
      when the search box is blank. */
  lemma BlankQueryListsEveryReadable(raw: seq<ReadResult>, query: string, k: SortKey, i: nat)
    requires AllSpace(query) && i < |raw| && Readable(raw[i])
    ensures ToRow(i, raw[i].result.value) in Missions(Some(raw), query, k)
  {
    BlankQueryKeepsAll(Rows(Some(raw)), query);
    var rows := RowsFrom(raw, 0);
    var j :| 0 <= j < |rows| && rows[j].id == i;
    assert rows[j] in multiset(rows);
  }
}
