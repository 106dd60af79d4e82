/** RecordsTransformer: a depth-first sort of the records of an interface, every record after the
    records it mentions. */
module RecordSort {
  import opened Wrappers
  import opened ITypes
  import opened Graphs
  import opened Collections
  import opened RecordClosure

  datatype SortError = MissingRecordType(id: nat)

  /** The two fields of the transformer. */
  datatype SortState = SortState(used: set<nat>, order: seq<nat>)

  lemma FewerLeft<T>(keys: set<T>, used: set<T>, more: set<T>)
    requires used <= more
    ensures |keys - more| <= |keys - used|
    ensures (exists x :: x in keys && x in more && x !in used) ==> |keys - more| < |keys - used|
  {
    Smaller(keys - more, keys - used);
    if exists x :: x in keys && x in more && x !in used {
      var x :| x in keys && x in more && x !in used;
      assert x in keys - used && x !in keys - more;
      Smaller(keys - more, (keys - used) - {x});
    }
  }

  lemma Smaller<T>(a: set<T>, b: set<T>)
    requires a <= b
    ensures |a| <= |b|
  {
    assert b == a + (b - a);
  }

  function Dfs(records: RecordTypes, st: SortState, id: nat): (r: Result<SortState, SortError>)
    requires id in records
    ensures r.Ok? ==> st.used <= r.value.used
    decreases |records.Keys - st.used|, 0
  {
    if id in st.used then Ok(st)
    else
      FewerLeft(records.Keys, st.used, st.used + {id});
      match FieldsDfs(records, SortState(st.used + {id}, st.order), records[id].fields)
      case Err(e) => Err(e)
      case Ok(st') => Ok(SortState(st'.used, st'.order + [id]))
  }

  function FieldsDfs(records: RecordTypes, st: SortState, fields: seq<RecordFieldType>): (r: Result<SortState, SortError>)
    ensures r.Ok? ==> st.used <= r.value.used
    decreases |records.Keys - st.used|, 2, |fields|
  {
    if fields == [] then Ok(st)
    else
      match TypeDfs(records, st, fields[0].ty)
      case Err(e) => Err(e)
      case Ok(st') =>
        FewerLeft(records.Keys, st.used, st'.used);
        FieldsDfs(records, st', fields[1..])
  }

  function TypeDfs(records: RecordTypes, st: SortState, ty: IType): (r: Result<SortState, SortError>)
    ensures r.Ok? ==> st.used <= r.value.used
    decreases |records.Keys - st.used|, 1, ty
  {
    match ty
    case Record(id) => if id in records then Dfs(records, st, id) else Err(MissingRecordType(id))
    case Array(elem) => TypeDfs(records, st, elem)
    case _ => Ok(st)
  }

  /** The loop of topological_sort. `ids` is the order in which it visits the map: sorted by record
      name, records of one name in any order. */
  function SortFrom(records: RecordTypes, st: SortState, ids: seq<nat>): Result<SortState, SortError>
    requires forall id :: id in ids ==> id in records
    decreases |ids|
  {
    if ids == [] then Ok(st)
    else
      match Dfs(records, st, ids[0])
      case Err(e) => Err(e)
      case Ok(st') => SortFrom(records, st', ids[1..])
  }

  function TopologicalSort(records: RecordTypes, ids: seq<nat>): Result<SortState, SortError>
    requires forall id :: id in ids ==> id in records
  {
    SortFrom(records, SortState({}, []), ids)
  }

  // ----- The transformer as it runs -----

  class RecordsTransformer {
    var used: set<nat>
    var sortedOrder: seq<nat>

    ghost function State(): SortState
      reads this
    {
      SortState(used, sortedOrder)
    }

    constructor ()
      ensures State() == SortState({}, [])
    {
      used, sortedOrder := {}, [];
    }

    method Visit(records: RecordTypes, id: nat) returns (failure: Option<SortError>)
      requires id in records
      modifies this
      ensures match Dfs(records, old(State()), id)
              case Ok(after) => failure == None && State() == after
              case Err(e) => failure == Some(e)
      decreases |records.Keys - used|, 0
    {
      if id in used { return None; }
      FewerLeft(records.Keys, used, used + {id});
      used := used + {id};
      var fields := records[id].fields;
      ghost var outcome := FieldsDfs(records, State(), fields);
      label start:
      for i := 0 to |fields|
        invariant old@start(used) <= used
        invariant outcome == FieldsDfs(records, State(), fields[i..])
      {
        assert fields[i..][1..] == fields[i + 1..];
        FewerLeft(records.Keys, old@start(used), used);
        failure := VisitType(records, fields[i].ty);
        if failure.Some? { return; }
      }
      sortedOrder := sortedOrder + [id];
      return None;
    }

    method VisitType(records: RecordTypes, ty: IType) returns (failure: Option<SortError>)
      modifies this
      ensures match TypeDfs(records, old(State()), ty)
              case Ok(after) => failure == None && State() == after
              case Err(e) => failure == Some(e)
      decreases |records.Keys - used|, 1, ty
    {
      match ty {
        case Record(id) =>
          if id !in records { return Some(MissingRecordType(id)); }
          failure := Visit(records, id);
        case Array(elem) => failure := VisitType(records, elem);
        case _ => failure := None;
      }
    }

    method Sort(records: RecordTypes, ids: seq<nat>) returns (failure: Option<SortError>)
      requires forall id :: id in ids ==> id in records
      modifies this
      ensures match SortFrom(records, old(State()), ids)
              case Ok(after) => failure == None && State() == after
              case Err(e) => failure == Some(e)
    {
      ghost var outcome := SortFrom(records, State(), ids);
      for i := 0 to |ids|
        invariant outcome == SortFrom(records, State(), ids[i..])
      {
        assert ids[i..][1..] == ids[i + 1..];
        failure := Visit(records, ids[i]);
        if failure.Some? { return; }
      }
      return None;
    }
  }

  method RunTopologicalSort(records: RecordTypes, ids: seq<nat>) returns (result: Result<seq<nat>, SortError>)
    requires forall id :: id in ids ==> id in records
    ensures match TopologicalSort(records, ids)
            case Ok(st) => result == Ok(st.order)
            case Err(e) => result == Err(e)
  {
    var transformer := new RecordsTransformer();
    var failure := transformer.Sort(records, ids);
    match failure {
      case Some(e) => return Err(e);
      case None => return Ok(transformer.sortedOrder);
    }
  }

  // ----- What a visit does, on any map -----

  /** Nodes entered but not finished. */
  function Grey(st: SortState): set<nat> {
    set id | id in st.used && id !in st.order
  }

  ghost predicate Distinct(order: seq<nat>) {
    forall i, j :: 0 <= i < j < |order| ==> order[i] != order[j]
  }

  /** Visited nodes are records; finished ones are listed once and everything they mention was visited. */
  ghost predicate Consistent(records: RecordTypes, st: SortState) {
    && st.used <= records.Keys
    && Distinct(st.order)
    && (forall id :: id in st.order ==> id in st.used)
    && (forall id :: id in st.order ==> id in records && FieldMentions(records[id].fields) <= st.used)
  }

  /** A completed visit leaves the unfinished nodes as they were: all it entered, it finished. */
  ghost predicate Advances(st: SortState, st': SortState) {
    st.used <= st'.used && st.order <= st'.order && Grey(st') == Grey(st)
  }

  lemma {:induction false} VisitDone(records: RecordTypes, st: SortState, id: nat)
    requires id in records && Consistent(records, st) && Dfs(records, st, id).Ok?
    ensures var st' := Dfs(records, st, id).value;
            Consistent(records, st') && Advances(st, st') && id in st'.used
    decreases |records.Keys - st.used|, 0
  {
    if id !in st.used {
      FewerLeft(records.Keys, st.used, st.used + {id});
      var start := SortState(st.used + {id}, st.order);
      FieldsDone(records, start, records[id].fields);
      var mid := FieldsDfs(records, start, records[id].fields).value;
      assert id in Grey(start);
      PushDone(records, st, start, mid, id);
    }
  }

  lemma PushDone(records: RecordTypes, st: SortState, start: SortState, mid: SortState, id: nat)
    requires id in records && id !in st.used && Consistent(records, st)
    requires start == SortState(st.used + {id}, st.order)
    requires Consistent(records, mid) && Advances(start, mid) && FieldMentions(records[id].fields) <= mid.used
    ensures Consistent(records, SortState(mid.used, mid.order + [id]))
    ensures Advances(st, SortState(mid.used, mid.order + [id]))
  {
    var end := SortState(mid.used, mid.order + [id]);
    assert id in Grey(start) && id in Grey(mid);
    forall x
      ensures x in Grey(end) <==> x in Grey(st)
    {
      assert x in Grey(mid) <==> x in Grey(start);
      assert x in end.order <==> x in mid.order || x == id;
    }
    assert Distinct(end.order);
  }

  lemma {:induction false} TypeDone(records: RecordTypes, st: SortState, ty: IType)
    requires Consistent(records, st) && TypeDfs(records, st, ty).Ok?
    ensures var st' := TypeDfs(records, st, ty).value;
            Consistent(records, st') && Advances(st, st') && Mentions(ty) <= st'.used
    decreases |records.Keys - st.used|, 1, ty
  {
    match ty
    case Record(id) => VisitDone(records, st, id);
    case Array(elem) => TypeDone(records, st, elem);
    case _ =>
  }

  lemma AdvancesTrans(a: SortState, b: SortState, c: SortState)
    requires Advances(a, b) && Advances(b, c)
    ensures Advances(a, c)
  {
  }

  lemma {:induction false} FieldsDone(records: RecordTypes, st: SortState, fields: seq<RecordFieldType>)
    requires Consistent(records, st) && FieldsDfs(records, st, fields).Ok?
    ensures var st' := FieldsDfs(records, st, fields).value;
            Consistent(records, st') && Advances(st, st') && FieldMentions(fields) <= st'.used
    decreases |records.Keys - st.used|, 2, |fields|
  {
    if fields != [] {
      TypeDone(records, st, fields[0].ty);
      var next := TypeDfs(records, st, fields[0].ty).value;
      FewerLeft(records.Keys, st.used, next.used);
      FieldsDone(records, next, fields[1..]);
      AdvancesTrans(st, next, FieldsDfs(records, st, fields).value);
      MentionsSplit(fields);
    }
  }

  lemma MentionsSplit(fields: seq<RecordFieldType>)
    requires fields != []
    ensures FieldMentions(fields) == Mentions(fields[0].ty) + FieldMentions(fields[1..])
  {
  }

  lemma {:induction false} SortDone(records: RecordTypes, st: SortState, ids: seq<nat>)
    requires forall id :: id in ids ==> id in records
    requires Consistent(records, st) && SortFrom(records, st, ids).Ok?
    ensures var st' := SortFrom(records, st, ids).value;
            && Consistent(records, st') && Advances(st, st')
            && forall id :: id in ids ==> id in st'.used
    decreases |ids|
  {
    if ids != [] {
      VisitDone(records, st, ids[0]);
      var next := Dfs(records, st, ids[0]).value;
      SortDone(records, next, ids[1..]);
      AdvancesTrans(st, next, SortFrom(records, st, ids).value);
    }
  }

  // ----- Success on closed maps, and only there -----

  lemma {:induction false} VisitSucceeds(records: RecordTypes, st: SortState, id: nat)
    requires Closed(records) && id in records
    ensures Dfs(records, st, id).Ok?
    decreases |records.Keys - st.used|, 0
  {
    if id !in st.used {
      FewerLeft(records.Keys, st.used, st.used + {id});
      forall m | m in FieldMentions(records[id].fields)
        ensures m in records
      {
        assert Edge(RefGraph(records), id, m);
      }
      FieldsSucceed(records, SortState(st.used + {id}, st.order), records[id].fields);
    }
  }

  lemma {:induction false} TypeSucceeds(records: RecordTypes, st: SortState, ty: IType)
    requires Closed(records) && Mentions(ty) <= records.Keys
    ensures TypeDfs(records, st, ty).Ok?
    decreases |records.Keys - st.used|, 1, ty
  {
    match ty
    case Record(id) => VisitSucceeds(records, st, id);
    case Array(elem) => TypeSucceeds(records, st, elem);
    case _ =>
  }

  lemma {:induction false} FieldsSucceed(records: RecordTypes, st: SortState, fields: seq<RecordFieldType>)
    requires Closed(records) && FieldMentions(fields) <= records.Keys
    ensures FieldsDfs(records, st, fields).Ok?
    decreases |records.Keys - st.used|, 2, |fields|
  {
    if fields != [] {
      MentionsSplit(fields);
      TypeSucceeds(records, st, fields[0].ty);
      var next := TypeDfs(records, st, fields[0].ty).value;
      FewerLeft(records.Keys, st.used, next.used);
      FieldsSucceed(records, next, fields[1..]);
    }
  }

  lemma {:induction false} SortSucceeds(records: RecordTypes, st: SortState, ids: seq<nat>)
    requires Closed(records) && forall id :: id in ids ==> id in records
    ensures SortFrom(records, st, ids).Ok?
    decreases |ids|
  {
    if ids != [] {
      VisitSucceeds(records, st, ids[0]);
      SortSucceeds(records, Dfs(records, st, ids[0]).value, ids[1..]);
    }
  }

  /** The sort ends on every map, cyclic ones included; it succeeds exactly on closed maps, and then
      lists every record exactly once. */
  lemma SortsExactlyClosedMaps(records: RecordTypes, ids: seq<nat>)
    requires Enumerates(ids, records.Keys)
    ensures TopologicalSort(records, ids).Ok? <==> Closed(records)
    ensures TopologicalSort(records, ids).Ok? ==> Enumerates(TopologicalSort(records, ids).value.order, records.Keys)
  {
    var start := SortState({}, []);
    if Closed(records) { SortSucceeds(records, start, ids); }
    if TopologicalSort(records, ids).Ok? {
      SortDone(records, start, ids);
      var end := TopologicalSort(records, ids).value;
      assert Grey(start) == {};
      forall id
        ensures id in end.order <==> id in records.Keys
      {
        if id in records.Keys {
          assert id in ids && id in end.used;
          assert id !in Grey(end);
        }
      }
      forall a, b | Edge(RefGraph(records), a, b)
        ensures b in records
      {
        assert a in end.order;
        assert b in FieldMentions(records[a].fields);
      }
    }
  }

  // ----- The order -----

  /** Every listed record comes after all records it mentions, through any nesting of arrays. */
  ghost predicate Topological(records: RecordTypes, order: seq<nat>) {
    forall i, m :: 0 <= i < |order| && order[i] in records && m in FieldMentions(records[order[i]].fields) ==>
      m in order[..i]
  }

  /** All unfinished nodes lead to `id`. */
  ghost predicate GreyReach(records: RecordTypes, st: SortState, id: nat) {
    forall g :: g in Grey(st) ==> Reaches(RefGraph(records), g, id)
  }

  ghost predicate GreyReachAll(records: RecordTypes, st: SortState, targets: set<nat>) {
    forall t :: t in targets ==> GreyReach(records, st, t)
  }

  lemma {:induction false} VisitOrders(records: RecordTypes, st: SortState, id: nat)
    requires id in records && Consistent(records, st) && Dfs(records, st, id).Ok?
    requires Acyclic(RefGraph(records)) && GreyReach(records, st, id) && Topological(records, st.order)
    ensures Topological(records, Dfs(records, st, id).value.order)
    decreases |records.Keys - st.used|, 0
  {
    if id !in st.used {
      FewerLeft(records.Keys, st.used, st.used + {id});
      var fields, start := records[id].fields, SortState(st.used + {id}, st.order);
      assert Grey(start) == Grey(st) + {id};
      forall m | m in FieldMentions(fields)
        ensures GreyReach(records, start, m)
      {
        ReachBelow(records, st, start, id, m);
      }
      FieldsOrder(records, start, fields);
      FieldsDone(records, start, fields);
      var mid := FieldsDfs(records, start, fields).value;
      forall m | m in FieldMentions(fields)
        ensures m in mid.order
      {
        NotGrey(records, start, mid, id, m);
      }
      PushOrders(records, mid.order, id);
    }
  }

  lemma ReachBelow(records: RecordTypes, st: SortState, start: SortState, id: nat, m: nat)
    requires id in records && m in FieldMentions(records[id].fields)
    requires GreyReach(records, st, id) && Grey(start) == Grey(st) + {id}
    ensures GreyReach(records, start, m)
  {
    var g := RefGraph(records);
    assert Edge(g, id, m);
    ReachesEdge(g, id, m);
    forall x | x in Grey(start)
      ensures Reaches(g, x, m)
    {
      if x != id { ReachesTrans(g, x, id, m); }
    }
  }

  /** A mentioned node that is still unfinished would close a cycle. */
  lemma NotGrey(records: RecordTypes, start: SortState, mid: SortState, id: nat, m: nat)
    requires id in records && m in FieldMentions(records[id].fields) && m in mid.used
    requires Acyclic(RefGraph(records)) && Advances(start, mid) && GreyReach(records, start, m)
    ensures m in mid.order
  {
    assert m in Grey(start) ==> Reaches(RefGraph(records), m, m);
    assert m in Grey(mid) <==> m in Grey(start);
  }

  lemma PushOrders(records: RecordTypes, order: seq<nat>, id: nat)
    requires id in records && Topological(records, order)
    requires forall m :: m in FieldMentions(records[id].fields) ==> m in order
    ensures Topological(records, order + [id])
  {
    var longer := order + [id];
    forall i, m | 0 <= i < |longer| && longer[i] in records && m in FieldMentions(records[longer[i]].fields)
      ensures m in longer[..i]
    {
      if i < |order| {
        assert m in order[..i] && longer[..i] == order[..i];
      } else {
        assert longer[..i] == order;
      }
    }
  }

  lemma {:induction false} TypeOrders(records: RecordTypes, st: SortState, ty: IType)
    requires Consistent(records, st) && TypeDfs(records, st, ty).Ok?
    requires Acyclic(RefGraph(records)) && GreyReachAll(records, st, Mentions(ty)) && Topological(records, st.order)
    ensures Topological(records, TypeDfs(records, st, ty).value.order)
    decreases |records.Keys - st.used|, 1, ty
  {
    match ty
    case Record(id) =>
      assert id in Mentions(ty);
      VisitOrders(records, st, id);
    case Array(elem) => TypeOrders(records, st, elem);
    case _ =>
  }

  lemma {:induction false} FieldsOrder(records: RecordTypes, st: SortState, fields: seq<RecordFieldType>)
    requires Consistent(records, st) && FieldsDfs(records, st, fields).Ok?
    requires Acyclic(RefGraph(records)) && GreyReachAll(records, st, FieldMentions(fields)) && Topological(records, st.order)
    ensures Topological(records, FieldsDfs(records, st, fields).value.order)
    decreases |records.Keys - st.used|, 2, |fields|
  {
    if fields != [] {
      MentionsSplit(fields);
      TypeOrders(records, st, fields[0].ty);
      TypeDone(records, st, fields[0].ty);
      var next := TypeDfs(records, st, fields[0].ty).value;
      FewerLeft(records.Keys, st.used, next.used);
      forall t | t in FieldMentions(fields[1..])
        ensures GreyReach(records, next, t)
      {
        assert GreyReach(records, st, t);
      }
      FieldsOrder(records, next, fields[1..]);
    }
  }

  lemma {:induction false} SortOrders(records: RecordTypes, st: SortState, ids: seq<nat>)
    requires forall id :: id in ids ==> id in records
    requires Consistent(records, st) && SortFrom(records, st, ids).Ok?
    requires Acyclic(RefGraph(records)) && Grey(st) == {} && Topological(records, st.order)
    ensures Topological(records, SortFrom(records, st, ids).value.order)
    decreases |ids|
  {
    if ids != [] {
      VisitOrders(records, st, ids[0]);
      VisitDone(records, st, ids[0]);
      SortOrders(records, Dfs(records, st, ids[0]).value, ids[1..]);
    }
  }

  lemma {:induction false} TopologicalIsAcyclic(records: RecordTypes, order: seq<nat>, p: seq<nat>, i: nat)
    requires Topological(records, order) && Distinct(order)
    requires Walk(RefGraph(records), p) && i < |order| && order[i] == p[0]
    ensures |p| > 1 ==> p[|p| - 1] in order[..i]
    decreases |p|
  {
    if |p| > 1 {
      WalkTail(RefGraph(records), p);
      assert p[1] in FieldMentions(records[order[i]].fields);
      var j :| 0 <= j < i && order[j] == p[1];
      TopologicalIsAcyclic(records, order, p[1..], j);
      if |p| > 2 {
        var k :| 0 <= k < j && order[k] == p[|p| - 1];
        assert order[..i][k] == p[|p| - 1];
      }
    }
  }

  /** On a closed map the result is a topological order exactly when no record reaches itself. */
  lemma TopologicalExactlyWhenAcyclic(records: RecordTypes, ids: seq<nat>)
    requires Enumerates(ids, records.Keys) && Closed(records)
    ensures TopologicalSort(records, ids).Ok?
    ensures Topological(records, TopologicalSort(records, ids).value.order) <==> Acyclic(RefGraph(records))
  {
    SortsExactlyClosedMaps(records, ids);
    var order, g := TopologicalSort(records, ids).value.order, RefGraph(records);
    if Acyclic(g) {
      SortOrders(records, SortState({}, []), ids);
    }
    if Topological(records, order) {
      forall a
        ensures !Reaches(g, a, a)
      {
        if Reaches(g, a, a) {
          var p :| |p| >= 2 && WalkBetween(g, p, a, a);
          assert Edge(g, p[0], p[0 + 1]);
          var i :| 0 <= i < |order| && order[i] == a;
          TopologicalIsAcyclic(records, order, p, i);
          assert false;
        }
      }
    }
  }
}
