/** A whole query: plan, filter, sort and cut a page, over an index of documents. */
module QueryDocuments {
  import opened Base
  import opened SortOrder
  import opened FilterQuery
  import opened Executor
  import opened DocumentFilter
  import opened PageMeaning
  import CursorWalk
  import Paginators

  /** The slots of the documents that satisfy every clause. */
  ghost function Satisfying(docs: Documents, cs: seq<Clause>): Bitmap {
    set x | x in docs && AsksAll(x, docs[x], cs)
  }

  /** `execute`: of the documents that satisfy the filter exactly the first ones behind the cursor, in the order
      asked for, and how many there are in all. */
  method ExecuteQuery(ghost schema: map<string, Kind>, s: Snapshot, ghost docs: Documents, cs: seq<Clause>,
                      q: CursorWalk.Query, layers: seq<Bitmap>, limit: nat, maxPage: nat, cursor: Option<Cursor>)
    returns (page: Paginators.PageResult, total: nat)
    requires Indexes(s, docs) && WellTyped(schema, s.names, docs) && NeverCapped(s) && |layers| <= 32
    requires s.buckets.Some? ==> forall d :: s.buckets.value.snap(d).Some? ==> s.buckets.value.snap(d).value <= s.alive
    requires forall c :: c in cs ==> Speaks(schema, s, docs, c) && Orderly(s, docs, c)
    ensures total == |Satisfying(docs, cs)|
    ensures !q.sorted ==> IsNewest(Satisfying(docs, cs), Min(limit, maxPage), cursor, page.ids)
    ensures q.sorted ==> IsPage(q.sortDir, layers, Satisfying(docs, cs), Min(limit, maxPage),
                                CursorWalk.Effective(q.plannedSimple || total < 1000, layers, cursor), page.ids)
    ensures page.cursor == CursorWalk.EndOfPage(q, layers, page.ids)
  {
    var hits := FilterDocuments(schema, s, docs, cs);
    assert hits.value == Satisfying(docs, cs);
    page := CursorWalk.Execute(q, layers, hits.value, limit, maxPage, cursor);
    total := |hits.value|;
  }
}
