/**
 * Keyset scans: the quote list and the audit list (src/infrastructure/persistence/postgres/quote-v2-reads.ts)
 * and the batch loop of the artifact verifier (src/infrastructure/documents/document-artifact-verifier.ts).
 */
module Keyset {
  import opened Wrappers
  import Rows
  import CellInvariants
  import Guarantees

  // ---------- one page ----------

  /** The filtered rows in index order; `before` is the order of the scan. */
  ghost predicate StrictOrder<K(!new)>(before: (K, K) -> bool) {
    && (forall a :: !before(a, a))
    && (forall a, b, c | before(a, b) && before(b, c) :: before(a, c))
  }

  ghost predicate Ascending<K(!new)>(before: (K, K) -> bool, rows: seq<K>) {
    forall i, j | 0 <= i < j < |rows| :: before(rows[i], rows[j])
  }

  /** `where key after cursor`. */
  function Beyond<K>(before: (K, K) -> bool, rows: seq<K>, cursor: Option<K>): seq<K> {
    if rows == [] || cursor.None? then rows
    else
      var rest := Beyond(before, rows[1..], cursor);
      if before(cursor.value, rows[0]) then [rows[0]] + rest else rest
  }

  function Limit<K>(rows: seq<K>, n: nat): seq<K> { if |rows| <= n then rows else rows[..n] }

  datatype Page<K> = Page(items: seq<K>, next: Option<K>)

  /** One row more than the page is fetched, only to know whether there is a next page. */
  function ReadPage<K>(before: (K, K) -> bool, rows: seq<K>, cursor: Option<K>, limit: pos): Page<K> {
    var fetched := Limit(Beyond(before, rows, cursor), limit + 1);
    var items := Limit(fetched, limit);
    Page(items, if |fetched| > limit then Some(items[|items| - 1]) else None)
  }

  /** The cursor after the first n rows. */
  function CursorAt<K>(rows: seq<K>, n: nat): Option<K>
    requires n <= |rows|
  {
    if n == 0 then None else Some(rows[n - 1])
  }

  lemma {:induction false} NothingBeyond<K(!new)>(before: (K, K) -> bool, rows: seq<K>, cursor: K, n: nat)
    requires n <= |rows|
    requires forall i | 0 <= i < n :: !before(cursor, rows[i])
    requires forall i | n <= i < |rows| :: before(cursor, rows[i])
    ensures Beyond(before, rows, Some(cursor)) == rows[n..]
    decreases |rows|
  {
    if rows != [] {
      if n > 0 {
        NothingBeyond(before, rows[1..], cursor, n - 1);
      } else {
        NothingBeyond(before, rows[1..], cursor, 0);
        assert rows[0..] == [rows[0]] + rows[1..][0..];
      }
    }
  }

  /** The rows beyond the cursor after the first n rows are the rows after the first n. */
  lemma BeyondIsRest<K(!new)>(before: (K, K) -> bool, rows: seq<K>, n: nat)
    requires StrictOrder(before) && Ascending(before, rows) && n <= |rows|
    ensures Beyond(before, rows, CursorAt(rows, n)) == rows[n..]
  {
    if n > 0 {
      var cursor := rows[n - 1];
      forall i | 0 <= i < n ensures !before(cursor, rows[i]) {
        if i < n - 1 { assert before(rows[i], cursor); }
      }
      NothingBeyond(before, rows, cursor, n);
    }
  }

  lemma PageIsNextRows<K(!new)>(before: (K, K) -> bool, rows: seq<K>, n: nat, limit: pos)
    requires StrictOrder(before) && Ascending(before, rows) && n <= |rows|
    ensures var page := ReadPage(before, rows, CursorAt(rows, n), limit);
            var end := n + |page.items|;
            && end <= |rows| && page.items == rows[n..end] && |page.items| <= limit
            && (page.next.Some? ==> |page.items| == limit && page.next == CursorAt(rows, end) && end < |rows|)
            && (page.next.None? ==> end == |rows|)
  {
    BeyondIsRest(before, rows, n);
  }

  // ---------- following the cursors ----------

  lemma PagesJoin<K>(rows: seq<K>, n: nat, page: seq<K>)
    requires n + |page| <= |rows| && page == rows[n..n + |page|]
    ensures rows[..n] + page == rows[..n + |page|] && (n + |page| == |rows| ==> rows[..n] + page == rows)
  {
  }

  /** Follows the cursors of a table that does not change: every row once, in order, for any page size. */
  method ReadToEnd<K(!new)>(before: (K, K) -> bool, rows: seq<K>, limit: pos) returns (items: seq<K>)
    requires StrictOrder(before) && Ascending(before, rows)
    ensures items == rows
  {
    items := [];
    var cursor: Option<K> := None;
    while true
      invariant |items| <= |rows| && items == rows[..|items|] && cursor == CursorAt(rows, |items|)
      decreases |rows| - |items|
    {
      var page := ReadPage(before, rows, cursor, limit);
      PageIsNextRows(before, rows, |items|, limit);
      PagesJoin(rows, |items|, page.items);
      items := items + page.items;
      if page.next.None? {
        return;
      }
      cursor := page.next;
    }
  }

  /** One read per snapshot, following the cursors; ends early when there is no next page. */
  function Follow<K>(before: (K, K) -> bool, snapshots: seq<seq<K>>, cursor: Option<K>, limit: pos): (seq<K>, Option<nat>)
    decreases |snapshots|
  {
    if snapshots == [] then ([], None)
    else
      var page := ReadPage(before, snapshots[0], cursor, limit);
      if page.next.None? then (page.items, Some(0))
      else
        var (items, ended) := Follow(before, snapshots[1..], page.next, limit);
        (page.items + items, if ended.Some? then Some(ended.value + 1) else None)
  }

  /** Each snapshot continues the ones before. */
  ghost predicate Growing<K(!new)>(before: (K, K) -> bool, snapshots: seq<seq<K>>) {
    && (forall i | 0 <= i < |snapshots| :: Ascending(before, snapshots[i]))
    && (forall i, j | 0 <= i <= j < |snapshots| :: snapshots[i] <= snapshots[j])
  }

  /** The rest of a scan, after a page of the first snapshot that had a next one. */
  lemma FollowOn<K(!new)>(before: (K, K) -> bool, snapshots: seq<seq<K>>, n: nat, limit: pos, end: nat)
    requires |snapshots| > 1 && n <= end <= |snapshots[0]|
    requires ReadPage(before, snapshots[0], CursorAt(snapshots[0], n), limit) == Page(snapshots[0][n..end], CursorAt(snapshots[0], end))
    requires end > 0
    ensures var (rest, ended) := Follow(before, snapshots[1..], CursorAt(snapshots[0], end), limit);
            Follow(before, snapshots, CursorAt(snapshots[0], n), limit) ==
            (snapshots[0][n..end] + rest, if ended.Some? then Some(ended.value + 1) else None)
  {
  }

  lemma {:induction false} FollowFrom<K(!new)>(before: (K, K) -> bool, snapshots: seq<seq<K>>, n: nat, limit: pos)
    requires StrictOrder(before) && Growing(before, snapshots) && snapshots != [] && n <= |snapshots[0]|
    ensures var (items, ended) := Follow(before, snapshots, CursorAt(snapshots[0], n), limit);
            ended.Some? ==> ended.value < |snapshots| && n <= |snapshots[ended.value]| && items == snapshots[ended.value][n..]
    decreases |snapshots|
  {
    var page := ReadPage(before, snapshots[0], CursorAt(snapshots[0], n), limit);
    PageIsNextRows(before, snapshots[0], n, limit);
    var end := n + |page.items|;
    if page.next.Some? && |snapshots| > 1 {
      var rest := snapshots[1..];
      assert snapshots[0] <= snapshots[1] == rest[0];
      assert CursorAt(rest[0], end) == page.next;
      FollowFrom(before, rest, end, limit);
      FollowOn(before, snapshots, n, limit, end);
      var ended := Follow(before, rest, page.next, limit).1;
      if ended.Some? {
        assert snapshots[0] <= snapshots[ended.value + 1] == rest[ended.value];
        PiecesJoin(snapshots[0], rest[ended.value], n, end);
      }
    }
  }

  lemma PiecesJoin<K>(first: seq<K>, last: seq<K>, n: nat, end: nat)
    requires n <= end <= |first| && first <= last
    ensures first[n..end] + last[end..] == last[n..]
  {
  }

  /**
   * A scan over a log that only grows: whatever was appended between its pages, when it ends it has
   * returned exactly the log as its last page saw it, each entry once and in order.
   */
  lemma ScansUnderAppends<K(!new)>(before: (K, K) -> bool, snapshots: seq<seq<K>>, limit: pos)
    requires StrictOrder(before) && Growing(before, snapshots)
    ensures var (items, ended) := Follow(before, snapshots, None, limit);
            ended.Some? ==> ended.value < |snapshots| && items == snapshots[ended.value]
  {
    if snapshots != [] { FollowFrom(before, snapshots, 0, limit); }
  }

  // ---------- the two lists ----------

  /** `createdAt desc, quoteId desc`. */
  predicate NewestFirst(a: (int, nat), b: (int, nat)) { a.0 > b.0 || (a.0 == b.0 && a.1 > b.1) }

  predicate BySequence(a: Rows.Entry, b: Rows.Entry) { a.sequence < b.sequence }

  lemma ListOrdersAreStrict()
    ensures StrictOrder(NewestFirst) && StrictOrder(BySequence)
  {
  }

  /** The stored log is in scan order, so the audit list returns it exactly. */
  lemma AuditIsAscending(cfg: Rows.Config, c: Rows.Cell)
    requires CellInvariants.Inv(cfg, c)
    ensures Ascending(BySequence, c.audit)
  {
    forall i, j | 0 <= i < j < |c.audit| ensures BySequence(c.audit[i], c.audit[j]) {
      Guarantees.LogRefinesStateMachine(cfg, c, i);
      Guarantees.LogRefinesStateMachine(cfg, c, j);
    }
  }

  /** The quote list: for any page size the whole filtered list, newest first, each quote once. */
  method ListQuotes(rows: seq<(int, nat)>, limit: pos) returns (items: seq<(int, nat)>)
    requires Ascending(NewestFirst, rows)
    ensures items == rows && forall i, j | 0 <= i < j < |items| :: items[i].0 >= items[j].0
  {
    ListOrdersAreStrict();
    items := ReadToEnd(NewestFirst, rows, limit);
    forall i, j | 0 <= i < j < |items| ensures items[i].0 >= items[j].0 { assert NewestFirst(rows[i], rows[j]); }
  }

  /** The audit list of a quote: for any page size exactly its stored log. */
  method ListAudit(cfg: Rows.Config, c: Rows.Cell, limit: pos) returns (items: seq<Rows.Entry>)
    requires CellInvariants.Inv(cfg, c)
    ensures items == c.audit
  {
    ListOrdersAreStrict();
    AuditIsAscending(cfg, c);
    items := ReadToEnd(BySequence, c.audit, limit);
  }

  // ---------- the verifier's batches ----------

  datatype Status = Fine | Missing | HashMismatch | LengthMismatch | ReadFailed | KeyInvalid | Oversized

  datatype Manifest = Manifest(documentId: nat, status: Status)

  predicate ById(a: Manifest, b: Manifest) { a.documentId < b.documentId }

  function CountOf(rows: seq<Manifest>, status: Status): nat {
    if rows == [] then 0
    else CountOf(rows[..|rows| - 1], status) + if rows[|rows| - 1].status == status then 1 else 0
  }

  function Problems(rows: seq<Manifest>): seq<Manifest> {
    if rows == [] then []
    else
      var last := rows[|rows| - 1];
      Problems(rows[..|rows| - 1]) + if last.status == Fine then [] else [last]
  }

  datatype Report = Report(complete: bool, checked: nat, byStatus: map<Status, nat>, problems: seq<Manifest>)

  /** The counts of a prefix of the rows. */
  ghost predicate Tallies(rows: seq<Manifest>, r: Report) {
    && r.checked == |rows| && r.problems == Problems(rows)
    && (forall status :: status in r.byStatus && r.byStatus[status] == CountOf(rows, status))
  }

  const NO_COUNTS: map<Status, nat> :=
    map[Fine := 0, Missing := 0, HashMismatch := 0, LengthMismatch := 0, ReadFailed := 0, KeyInvalid := 0, Oversized := 0]

  /** The counters after one more row. */
  function Tallied(r: Report, row: Manifest): Report {
    r.(checked := r.checked + 1,
       byStatus := r.byStatus[row.status := 1 + if row.status in r.byStatus then r.byStatus[row.status] else 0],
       problems := if row.status == Fine then r.problems else r.problems + [row])
  }

  lemma NextRow(rows: seq<Manifest>, n: nat, r: Report)
    requires n < |rows| && Tallies(rows[..n], r)
    ensures Tallies(rows[..n + 1], Tallied(r, rows[n]))
  {
    var longer := rows[..n + 1];
    assert longer[..|longer| - 1] == rows[..n];
    forall status ensures status in Tallied(r, rows[n]).byStatus && Tallied(r, rows[n]).byStatus[status] == CountOf(longer, status) {
      assert status in r.byStatus && r.byStatus[status] == CountOf(rows[..n], status);
    }
  }

  lemma NothingTallied()
    ensures Tallies([], Report(true, 0, NO_COUNTS, []))
  {
    forall status ensures status in NO_COUNTS && NO_COUNTS[status] == 0 {
      match status
      case Fine =>
      case Missing =>
      case HashMismatch =>
      case LengthMismatch =>
      case ReadFailed =>
      case KeyInvalid =>
      case Oversized =>
    }
  }

  /** The rows of one batch. */
  method VerifyBatch(rows: seq<Manifest>, n: nat, batch: seq<Manifest>, r: Report) returns (after: Report)
    requires n + |batch| <= |rows| && batch == rows[n..n + |batch|] && Tallies(rows[..n], r)
    ensures Tallies(rows[..n + |batch|], after) && after.complete == r.complete
  {
    after := r;
    var i := 0;
    while i < |batch|
      invariant 0 <= i <= |batch| && after.complete == r.complete
      invariant Tallies(rows[..n + i], after)
    {
      NextRow(rows, n + i, after);
      after := Tallied(after, batch[i]);
      i := i + 1;
    }
  }

  lemma NextBatch(rows: seq<Manifest>, n: nat, batchSize: pos)
    requires Ascending(ById, rows) && n <= |rows|
    ensures var batch := Limit(Beyond(ById, rows, CursorAt(rows, n)), batchSize);
            var end := n + |batch|;
            && end <= |rows| && batch == rows[n..end]
            && (|batch| == batchSize ==> Some(batch[|batch| - 1]) == CursorAt(rows, end))
            && (|batch| != batchSize ==> end == |rows|)
  {
    BeyondIsRest(ById, rows, n);
  }

  /** Reads and verifies one batch; a short one is the last. */
  method NextReport(rows: seq<Manifest>, cursor: Option<Manifest>, batchSize: pos, r: Report) returns (after: Report, next: Option<Manifest>)
    requires Ascending(ById, rows) && r.checked <= |rows| && cursor == CursorAt(rows, r.checked)
    requires Tallies(rows[..r.checked], r)
    ensures r.checked <= after.checked <= |rows| && after.complete == r.complete && Tallies(rows[..after.checked], after)
    ensures if next.Some? then r.checked < after.checked && next == CursorAt(rows, after.checked) else after.checked == |rows|
  {
    var batch := Limit(Beyond(ById, rows, cursor), batchSize);
    NextBatch(rows, r.checked, batchSize);
    after := VerifyBatch(rows, r.checked, batch, r);
    next := if |batch| < batchSize then None else Some(batch[|batch| - 1]);
  }

  /**
   * Batches by document id until one comes back short. A complete report counts every manifest
   * exactly once, also when their number is a multiple of the batch size; a stopped one counts
   * a prefix.
   */
  method VerifyArtifacts(rows: seq<Manifest>, batchSize: pos, goOn: nat -> bool) returns (r: Report)
    requires Ascending(ById, rows)
    ensures r.checked <= |rows| && Tallies(rows[..r.checked], r)
    ensures r.complete ==> r.checked == |rows|
    ensures (forall n :: goOn(n)) ==> r.complete
  {
    r := Report(true, 0, NO_COUNTS, []);
    NothingTallied();
    assert rows[..0] == [];
    var cursor: Option<Manifest> := None;
    while goOn(r.checked)
      invariant r.complete && r.checked <= |rows| && Tallies(rows[..r.checked], r)
      invariant cursor == CursorAt(rows, r.checked)
      decreases |rows| - r.checked
    {
      var after, next := NextReport(rows, cursor, batchSize, r);
      r := after;
      if next.None? {
        return;
      }
      cursor := next;
    }
    r := r.(complete := false);
  }

  /** The counts of all statuses add up to the rows checked. */
  lemma {:induction false} CountsAddUp(rows: seq<Manifest>)
    ensures CountOf(rows, Fine) + CountOf(rows, Missing) + CountOf(rows, HashMismatch) + CountOf(rows, LengthMismatch)
            + CountOf(rows, ReadFailed) + CountOf(rows, KeyInvalid) + CountOf(rows, Oversized) == |rows|
    ensures |Problems(rows)| == |rows| - CountOf(rows, Fine)
    decreases |rows|
  {
    if rows != [] { CountsAddUp(rows[..|rows| - 1]); }
  }
}
