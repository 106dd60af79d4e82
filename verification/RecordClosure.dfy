/** get_record_types: the records a module's interface needs, collected with a bound on the depth. */
module RecordClosure {
  import opened Wrappers
  import opened ITypes
  import opened Graphs

  const TYPE_RESOLVE_RECURSION_LIMIT := 1024

  type RecordTypes = map<nat, RecordType>

  datatype ClosureError = TooManyRecursionLevels | NotFoundRecordTypeId(id: nat)

  /** get_all_records: the records of the type table under their indexes. */
  function AllRecords(types: seq<AstType>): RecordTypes {
    map i: nat | i < |types| && types[i].Record? :: types[i].record
  }

  function HandleItype(ty: IType, all: RecordTypes, exported: RecordTypes, level: nat): Result<RecordTypes, ClosureError>
    decreases TYPE_RESOLVE_RECURSION_LIMIT + 3 - level, 2, 0
  {
    if level > TYPE_RESOLVE_RECURSION_LIMIT then Err(TooManyRecursionLevels)
    else
      match ty
      case Record(id) => HandleRecordType(id, all, exported, level + 1)
      case Array(elem) => HandleItype(elem, all, exported, level + 1)
      case _ => Ok(exported)
  }

  function HandleRecordType(id: nat, all: RecordTypes, exported: RecordTypes, level: nat): Result<RecordTypes, ClosureError>
    requires level <= TYPE_RESOLVE_RECURSION_LIMIT + 1
    decreases TYPE_RESOLVE_RECURSION_LIMIT + 3 - level, 1, 0
  {
    if id !in all then Err(NotFoundRecordTypeId(id))
    else HandleFields(all[id].fields, all, exported[id := all[id]], level)
  }

  function HandleFields(fields: seq<RecordFieldType>, all: RecordTypes, exported: RecordTypes, level: nat): Result<RecordTypes, ClosureError>
    requires level <= TYPE_RESOLVE_RECURSION_LIMIT + 1
    decreases TYPE_RESOLVE_RECURSION_LIMIT + 3 - level, 0, |fields|
  {
    if fields == [] then Ok(exported)
    else
      match HandleItype(fields[0].ty, all, exported, level + 1)
      case Err(e) => Err(e)
      case Ok(next) => HandleFields(fields[1..], all, next, level)
  }

  function HandleAll(itypes: seq<IType>, all: RecordTypes, exported: RecordTypes): Result<RecordTypes, ClosureError>
    decreases |itypes|
  {
    if itypes == [] then Ok(exported)
    else
      match HandleItype(itypes[0], all, exported, 0)
      case Err(e) => Err(e)
      case Ok(next) => HandleAll(itypes[1..], all, next)
  }

  /** `itypes` are the argument and output types of the exported functions. */
  function GetRecordTypes(all: RecordTypes, itypes: seq<IType>): Result<RecordTypes, ClosureError> {
    HandleAll(itypes, all, map[])
  }

  // ----- The same pass as it runs, on a map extended in place -----

  class RecordCollector {
    const all: RecordTypes
    var exported: RecordTypes

    constructor (all: RecordTypes)
      ensures this.all == all && exported == map[]
    {
      this.all := all;
      exported := map[];
    }

    method CollectType(ty: IType, level: nat) returns (failure: Option<ClosureError>)
      modifies this
      ensures match HandleItype(ty, all, old(exported), level)
              case Ok(after) => failure == None && exported == after
              case Err(e) => failure == Some(e)
      decreases TYPE_RESOLVE_RECURSION_LIMIT + 3 - level, 1
    {
      if level > TYPE_RESOLVE_RECURSION_LIMIT {
        return Some(TooManyRecursionLevels);
      }
      match ty {
        case Record(id) => failure := CollectRecord(id, level + 1);
        case Array(elem) => failure := CollectType(elem, level + 1);
        case _ => failure := None;
      }
    }

    method CollectRecord(id: nat, level: nat) returns (failure: Option<ClosureError>)
      requires level <= TYPE_RESOLVE_RECURSION_LIMIT + 1
      modifies this
      ensures match HandleRecordType(id, all, old(exported), level)
              case Ok(after) => failure == None && exported == after
              case Err(e) => failure == Some(e)
      decreases TYPE_RESOLVE_RECURSION_LIMIT + 3 - level, 0
    {
      if id !in all {
        return Some(NotFoundRecordTypeId(id));
      }
      var fields := all[id].fields;
      exported := exported[id := all[id]];
      ghost var outcome := HandleFields(fields, all, exported, level);
      for i := 0 to |fields|
        invariant outcome == HandleFields(fields[i..], all, exported, level)
      {
        assert fields[i..][1..] == fields[i + 1..];
        failure := CollectType(fields[i].ty, level + 1);
        if failure.Some? { return; }
      }
      return None;
    }

    method CollectAll(itypes: seq<IType>) returns (failure: Option<ClosureError>)
      modifies this
      ensures match HandleAll(itypes, all, old(exported))
              case Ok(after) => failure == None && exported == after
              case Err(e) => failure == Some(e)
    {
      ghost var outcome := HandleAll(itypes, all, exported);
      for i := 0 to |itypes|
        invariant outcome == HandleAll(itypes[i..], all, exported)
      {
        assert itypes[i..][1..] == itypes[i + 1..];
        failure := CollectType(itypes[i], 0);
        if failure.Some? { return; }
      }
      return None;
    }
  }

  method RunGetRecordTypes(all: RecordTypes, itypes: seq<IType>) returns (result: Result<RecordTypes, ClosureError>)
    ensures result == GetRecordTypes(all, itypes)
  {
    var collector := new RecordCollector(all);
    var failure := collector.CollectAll(itypes);
    match failure {
      case Some(e) => return Err(e);
      case None => return Ok(collector.exported);
    }
  }

  // ----- Chains of types: what the depth bound really bounds -----

  predicate HasFieldOf(fields: seq<RecordFieldType>, ty: IType) {
    exists k :: 0 <= k < |fields| && fields[k].ty == ty
  }

  /** `b` is what the pass looks at right below `a`. */
  predicate Below(all: RecordTypes, a: IType, b: IType) {
    match a
    case Array(elem) => b == elem
    case Record(id) => id in all && HasFieldOf(all[id].fields, b)
    case _ => false
  }

  ghost predicate Chain(all: RecordTypes, p: seq<IType>) {
    |p| > 0 && forall i {:trigger p[i]} :: 0 <= i < |p| - 1 ==> Below(all, p[i], p[i + 1])
  }

  /** Entering a record costs two levels, entering an array one. */
  function Cost(p: seq<IType>): nat {
    if |p| <= 1 then 0 else (if p[0].Record? then 2 else 1) + Cost(p[1..])
  }

  /** A chain entered at `level` stays within the limit and finds the record at its end. */
  ghost predicate Fits(all: RecordTypes, p: seq<IType>, level: nat)
    requires |p| > 0
  {
    level + Cost(p) <= TYPE_RESOLVE_RECURSION_LIMIT && (p[|p| - 1].Record? ==> p[|p| - 1].id in all)
  }

  ghost predicate Bounded(all: RecordTypes, ty: IType, level: nat) {
    forall p: seq<IType> :: Chain(all, p) && p[0] == ty ==> Fits(all, p, level)
  }

  lemma ChainTail(all: RecordTypes, p: seq<IType>)
    requires Chain(all, p) && |p| > 1
    ensures Chain(all, p[1..]) && Below(all, p[0], p[1]) && p[1..][0] == p[1]
  {
  }

  lemma ChainPrepend(all: RecordTypes, a: IType, p: seq<IType>)
    requires Chain(all, p) && Below(all, a, p[0])
    ensures Chain(all, [a] + p) && Cost([a] + p) == (if a.Record? then 2 else 1) + Cost(p)
  {
  }

  /** Success of the fields means success of each, from some map on. */
  lemma {:induction false} FieldHandled(fields: seq<RecordFieldType>, k: nat, all: RecordTypes, exported: RecordTypes, level: nat)
    returns (from: RecordTypes)
    requires level <= TYPE_RESOLVE_RECURSION_LIMIT + 1 && k < |fields|
    requires HandleFields(fields, all, exported, level).Ok?
    ensures HandleItype(fields[k].ty, all, from, level + 1).Ok?
  {
    if k == 0 {
      from := exported;
    } else {
      from := FieldHandled(fields[1..], k - 1, all, HandleItype(fields[0].ty, all, exported, level + 1).value, level);
    }
  }

  ghost predicate EachHandled(fields: seq<RecordFieldType>, all: RecordTypes, level: nat) {
    forall k, from :: 0 <= k < |fields| ==> HandleItype(fields[k].ty, all, from, level).Ok?
  }

  lemma {:induction false} FieldsHandled(fields: seq<RecordFieldType>, all: RecordTypes, exported: RecordTypes, level: nat, next: nat)
    requires level <= TYPE_RESOLVE_RECURSION_LIMIT + 1 && next == level + 1 && EachHandled(fields, all, next)
    ensures HandleFields(fields, all, exported, level).Ok?
    decreases |fields|
  {
    if fields != [] {
      assert HandleItype(fields[0].ty, all, exported, next).Ok?;
      assert forall k :: 0 <= k < |fields[1..]| ==> fields[1..][k] == fields[k + 1];
      FieldsHandled(fields[1..], all, HandleItype(fields[0].ty, all, exported, next).value, level, next);
    }
  }

  lemma {:induction false} HandledBoundsChain(ty: IType, all: RecordTypes, exported: RecordTypes, level: nat, p: seq<IType>)
    requires HandleItype(ty, all, exported, level).Ok? && Chain(all, p) && p[0] == ty
    ensures Fits(all, p, level)
    decreases |p|
  {
    if |p| > 1 {
      ChainTail(all, p);
      if ty.Array? {
        HandledBoundsChain(ty.elem, all, exported, level + 1, p[1..]);
      } else {
        var fields := all[ty.id].fields;
        var k :| 0 <= k < |fields| && fields[k].ty == p[1];
        var from := FieldHandled(fields, k, all, exported[ty.id := all[ty.id]], level + 1);
        HandledBoundsChain(p[1], all, from, level + 2, p[1..]);
      }
    }
  }

  lemma BoundedBelow(all: RecordTypes, a: IType, b: IType, level: nat)
    requires Bounded(all, a, level) && Below(all, a, b)
    ensures Bounded(all, b, level + if a.Record? then 2 else 1)
  {
    forall p: seq<IType> | Chain(all, p) && p[0] == b
      ensures Fits(all, p, level + if a.Record? then 2 else 1)
    {
      ChainPrepend(all, a, p);
      var q := [a] + p;
      assert Chain(all, q) && q[0] == a && q[|q| - 1] == p[|p| - 1];
    }
  }

  lemma {:induction false} BoundedHandled(ty: IType, all: RecordTypes, exported: RecordTypes, level: nat)
    requires Bounded(all, ty, level)
    ensures HandleItype(ty, all, exported, level).Ok?
    decreases TYPE_RESOLVE_RECURSION_LIMIT + 3 - level
  {
    assert Chain(all, [ty]) && Cost([ty]) == 0 && [ty][0] == ty;
    if ty.Array? {
      BoundedBelow(all, ty, ty.elem, level);
      BoundedHandled(ty.elem, all, exported, level + 1);
    } else if ty.Record? {
      var fields := all[ty.id].fields;
      var next: nat := level + 2;
      forall k, from | 0 <= k < |fields|
        ensures HandleItype(fields[k].ty, all, from, next).Ok?
      {
        assert Below(all, ty, fields[k].ty);
        BoundedBelow(all, ty, fields[k].ty, level);
        BoundedHandled(fields[k].ty, all, from, next);
      }
      FieldsHandled(fields, all, exported[ty.id := all[ty.id]], level + 1, next);
    }
  }

  lemma HandledExactlyBounded(ty: IType, all: RecordTypes, exported: RecordTypes, level: nat)
    ensures HandleItype(ty, all, exported, level).Ok? <==> Bounded(all, ty, level)
  {
    if Bounded(all, ty, level) { BoundedHandled(ty, all, exported, level); }
    if HandleItype(ty, all, exported, level).Ok? {
      forall p: seq<IType> | Chain(all, p) && p[0] == ty
        ensures Fits(all, p, level)
      {
        HandledBoundsChain(ty, all, exported, level, p);
      }
    }
  }

  ghost predicate AllBounded(all: RecordTypes, itypes: seq<IType>) {
    forall i {:trigger itypes[i]} :: 0 <= i < |itypes| ==> Bounded(all, itypes[i], 0)
  }

  /** The pass succeeds exactly when every chain from the signatures finds its records within the
      limit. */
  lemma {:induction false} SucceedsExactlyWhenBounded(all: RecordTypes, itypes: seq<IType>, exported: RecordTypes)
    ensures HandleAll(itypes, all, exported).Ok? <==> AllBounded(all, itypes)
    decreases |itypes|
  {
    if itypes != [] {
      var first := HandleItype(itypes[0], all, exported, 0);
      HandledExactlyBounded(itypes[0], all, exported, 0);
      if first.Ok? {
        SucceedsExactlyWhenBounded(all, itypes[1..], first.value);
        if AllBounded(all, itypes[1..]) {
          forall i | 0 <= i < |itypes|
            ensures Bounded(all, itypes[i], 0)
          {
            if i > 0 { assert itypes[i] == itypes[1..][i - 1]; }
          }
        }
        if AllBounded(all, itypes) {
          forall i | 0 <= i < |itypes[1..]|
            ensures Bounded(all, itypes[1..][i], 0)
          {
            assert itypes[1..][i] == itypes[i + 1];
          }
        }
      }
    }
  }

  // ----- The graph of records -----

  /** The record ids in a type, through any nesting of arrays. */
  function Mentions(ty: IType): set<nat> {
    match ty
    case Record(id) => {id}
    case Array(elem) => Mentions(elem)
    case _ => {}
  }

  function FieldMentions(fields: seq<RecordFieldType>): set<nat> {
    set k, id | 0 <= k < |fields| && id in Mentions(fields[k].ty) :: id
  }

  function RootMentions(itypes: seq<IType>): set<nat> {
    set k, id | 0 <= k < |itypes| && id in Mentions(itypes[k]) :: id
  }

  function RefGraph(records: RecordTypes): Graph {
    map id | id in records :: FieldMentions(records[id].fields)
  }

  ghost predicate Closed(records: RecordTypes) {
    forall a, b :: Edge(RefGraph(records), a, b) ==> b in records
  }

  /** `id` is mentioned by a root or by a record that is needed. */
  ghost predicate Needed(all: RecordTypes, roots: set<nat>, id: nat) {
    id in roots || exists r :: r in roots && Reaches(RefGraph(all), r, id)
  }

  /** The part of `all` under the keys of `exported`. */
  ghost predicate PartOf(exported: RecordTypes, all: RecordTypes) {
    forall id :: id in exported ==> id in all && exported[id] == all[id]
  }

  /** The new entries of `after` bring in all they mention. */
  ghost predicate ClosedSince(before: RecordTypes, after: RecordTypes, all: RecordTypes) {
    && (forall id :: id in before ==> id in after)
    && (forall id :: id in after && id !in before ==> id in all && FieldMentions(all[id].fields) <= after.Keys)
  }

  lemma {:induction false} HandledTypeCloses(ty: IType, all: RecordTypes, exported: RecordTypes, level: nat)
    requires HandleItype(ty, all, exported, level).Ok? && PartOf(exported, all)
    ensures var after := HandleItype(ty, all, exported, level).value;
            PartOf(after, all) && ClosedSince(exported, after, all) && Mentions(ty) <= after.Keys
    decreases TYPE_RESOLVE_RECURSION_LIMIT + 3 - level, 1, 0
  {
    match ty
    case Record(id) =>
      var fields, start := all[id].fields, exported[id := all[id]];
      HandledFieldsClose(fields, all, start, level + 1);
      var after := HandleItype(ty, all, exported, level).value;
      assert id in start;
      forall k, m | 0 <= k < |fields| && m in Mentions(fields[k].ty)
        ensures m in after
      {
      }
    case Array(elem) => HandledTypeCloses(elem, all, exported, level + 1);
    case _ =>
  }

  lemma {:induction false} HandledFieldsClose(fields: seq<RecordFieldType>, all: RecordTypes, exported: RecordTypes, level: nat)
    requires level <= TYPE_RESOLVE_RECURSION_LIMIT + 1
    requires HandleFields(fields, all, exported, level).Ok? && PartOf(exported, all)
    ensures var after := HandleFields(fields, all, exported, level).value;
            && PartOf(after, all) && ClosedSince(exported, after, all)
            && forall k :: 0 <= k < |fields| ==> Mentions(fields[k].ty) <= after.Keys
    decreases TYPE_RESOLVE_RECURSION_LIMIT + 3 - level, 0, |fields|
  {
    if fields != [] {
      var next := HandleItype(fields[0].ty, all, exported, level + 1).value;
      HandledTypeCloses(fields[0].ty, all, exported, level + 1);
      HandledFieldsClose(fields[1..], all, next, level);
      var after := HandleFields(fields, all, exported, level).value;
      forall k | 0 <= k < |fields|
        ensures Mentions(fields[k].ty) <= after.Keys
      {
        if k > 0 { assert fields[k] == fields[1..][k - 1]; }
      }
    }
  }

  lemma {:induction false} HandledAllCloses(itypes: seq<IType>, all: RecordTypes, exported: RecordTypes)
    requires HandleAll(itypes, all, exported).Ok? && PartOf(exported, all)
    ensures var after := HandleAll(itypes, all, exported).value;
            && PartOf(after, all) && ClosedSince(exported, after, all)
            && forall k :: 0 <= k < |itypes| ==> Mentions(itypes[k]) <= after.Keys
    decreases |itypes|
  {
    if itypes != [] {
      var next := HandleItype(itypes[0], all, exported, 0).value;
      HandledTypeCloses(itypes[0], all, exported, 0);
      HandledAllCloses(itypes[1..], all, next);
      var after := HandleAll(itypes, all, exported).value;
      forall k | 0 <= k < |itypes|
        ensures Mentions(itypes[k]) <= after.Keys
      {
        if k > 0 { assert itypes[k] == itypes[1..][k - 1]; }
      }
    }
  }

  /** New entries are needed by the type just handled. */
  lemma {:induction false} HandledTypeNeeds(ty: IType, all: RecordTypes, exported: RecordTypes, level: nat, id: nat)
    requires HandleItype(ty, all, exported, level).Ok? && id in HandleItype(ty, all, exported, level).value && id !in exported
    ensures Needed(all, Mentions(ty), id)
    decreases TYPE_RESOLVE_RECURSION_LIMIT + 3 - level, 1, 0
  {
    match ty
    case Record(r) =>
      if id != r {
        var m := HandledFieldsNeed(all[r].fields, all, exported[r := all[r]], level + 1, id);
        assert m in FieldMentions(all[r].fields);
        assert Edge(RefGraph(all), r, m);
        ReachesEdge(RefGraph(all), r, m);
        if m != id { ReachesTrans(RefGraph(all), r, m, id); }
      }
    case Array(elem) => HandledTypeNeeds(elem, all, exported, level + 1, id);
    case _ =>
  }

  lemma {:induction false} HandledFieldsNeed(fields: seq<RecordFieldType>, all: RecordTypes, exported: RecordTypes, level: nat, id: nat)
    returns (m: nat)
    requires level <= TYPE_RESOLVE_RECURSION_LIMIT + 1
    requires HandleFields(fields, all, exported, level).Ok? && id in HandleFields(fields, all, exported, level).value && id !in exported
    ensures m in FieldMentions(fields) && (m == id || Reaches(RefGraph(all), m, id))
    decreases TYPE_RESOLVE_RECURSION_LIMIT + 3 - level, 0, |fields|
  {
    var next := HandleItype(fields[0].ty, all, exported, level + 1).value;
    if id in next {
      HandledTypeNeeds(fields[0].ty, all, exported, level + 1, id);
      if id in Mentions(fields[0].ty) { m := id; }
      else { m :| m in Mentions(fields[0].ty) && Reaches(RefGraph(all), m, id); }
    } else {
      m := HandledFieldsNeed(fields[1..], all, next, level, id);
      var k :| 0 <= k < |fields[1..]| && m in Mentions(fields[1..][k].ty);
      assert fields[1..][k] == fields[k + 1];
    }
  }

  lemma {:induction false} HandledAllNeeds(itypes: seq<IType>, all: RecordTypes, exported: RecordTypes, id: nat)
    requires HandleAll(itypes, all, exported).Ok? && id in HandleAll(itypes, all, exported).value && id !in exported
    ensures Needed(all, RootMentions(itypes), id)
    decreases |itypes|
  {
    var next := HandleItype(itypes[0], all, exported, 0).value;
    if id in next {
      HandledTypeNeeds(itypes[0], all, exported, 0, id);
      assert Mentions(itypes[0]) <= RootMentions(itypes);
    } else {
      HandledAllNeeds(itypes[1..], all, next, id);
      assert forall k :: 0 <= k < |itypes[1..]| ==> itypes[1..][k] == itypes[k + 1];
      assert RootMentions(itypes[1..]) <= RootMentions(itypes);
    }
  }

  /** Walking from inside a set closed under mentions stays inside it. */
  lemma {:induction false} WalkStays(all: RecordTypes, records: RecordTypes, p: seq<nat>)
    requires Walk(RefGraph(all), p) && p[0] in records
    requires forall id :: id in records ==> id in all && FieldMentions(all[id].fields) <= records.Keys
    ensures p[|p| - 1] in records
    decreases |p|
  {
    if |p| > 1 {
      WalkTail(RefGraph(all), p);
      assert p[1] in FieldMentions(all[p[0]].fields);
      WalkStays(all, records, p[1..]);
    }
  }

  /** What is collected: exactly the records needed, each as the type table has it. */
  lemma CollectsExactlyTheNeeded(all: RecordTypes, itypes: seq<IType>)
    requires GetRecordTypes(all, itypes).Ok?
    ensures var exported := GetRecordTypes(all, itypes).value;
            && PartOf(exported, all) && Closed(exported)
            && forall id :: id in exported <==> Needed(all, RootMentions(itypes), id)
  {
    var exported := GetRecordTypes(all, itypes).value;
    HandledAllCloses(itypes, all, map[]);
    assert forall id :: id in exported ==> id in all && FieldMentions(all[id].fields) <= exported.Keys;
    forall id | id in exported
      ensures Needed(all, RootMentions(itypes), id)
    {
      HandledAllNeeds(itypes, all, map[], id);
    }
    forall id | Needed(all, RootMentions(itypes), id)
      ensures id in exported
    {
      if id !in RootMentions(itypes) {
        var r :| r in RootMentions(itypes) && Reaches(RefGraph(all), r, id);
        var p :| |p| >= 2 && WalkBetween(RefGraph(all), p, r, id);
        WalkStays(all, exported, p);
      }
    }
    forall a, b | Edge(RefGraph(exported), a, b)
      ensures b in exported
    {
      assert b in FieldMentions(all[a].fields);
    }
  }

  // ----- No cycles -----

  /** A mention is reached by a chain that only enters arrays. */
  lemma {:induction false} ChainToMention(all: RecordTypes, ty: IType, id: nat, p: seq<IType>) returns (q: seq<IType>)
    requires id in Mentions(ty) && Chain(all, p) && p[0] == IType.Record(id)
    ensures Chain(all, q) && q[0] == ty && Cost(q) >= Cost(p)
    decreases ty
  {
    if ty.Record? {
      q := p;
    } else {
      q := ChainToMention(all, ty.elem, id, p);
      ChainPrepend(all, ty, q);
      q := [ty] + q;
    }
  }

  /** A walk through records, and whatever chain goes on from its end, is a chain through their field
      types. */
  lemma {:induction false} ChainOfWalk(all: RecordTypes, w: seq<nat>, tail: seq<IType>) returns (q: seq<IType>)
    requires Walk(RefGraph(all), w) && Chain(all, tail) && tail[0] == IType.Record(w[|w| - 1])
    ensures Chain(all, q) && q[0] == IType.Record(w[0]) && Cost(q) >= 2 * (|w| - 1) + Cost(tail)
    decreases |w|
  {
    if |w| == 1 {
      q := tail;
    } else {
      WalkTail(RefGraph(all), w);
      var rest := ChainOfWalk(all, w[1..], tail);
      var fields := all[w[0]].fields;
      assert w[1] in FieldMentions(fields);
      var k :| 0 <= k < |fields| && w[1] in Mentions(fields[k].ty);
      var below := ChainToMention(all, fields[k].ty, w[1], rest);
      ChainPrepend(all, IType.Record(w[0]), below);
      q := [IType.Record(w[0])] + below;
    }
  }

  /** What the pass looks at from a record on: the record itself, and its first field if there is one. */
  lemma ChainFromRecord(all: RecordTypes, id: nat) returns (tail: seq<IType>)
    ensures Chain(all, tail) && tail[0] == IType.Record(id)
    ensures id in all && all[id].fields != [] ==> Cost(tail) == 2
  {
    if id in all && all[id].fields != [] {
      var field := all[id].fields[0].ty;
      tail := [IType.Record(id), field];
      assert Below(all, IType.Record(id), field);
      assert tail[1..] == [field];
    } else {
      tail := [IType.Record(id)];
    }
  }

  /** Below the last record of a walk come its fields, so a walk of `n` records costs `2 * n` levels. */
  lemma BoundedWalks(all: RecordTypes, ty: IType, r: nat, w: seq<nat>)
    requires Bounded(all, ty, 0) && r in Mentions(ty) && Walk(RefGraph(all), w) && w[0] == r
    ensures 2 * (|w| - 1) <= TYPE_RESOLVE_RECURSION_LIMIT
    ensures w[|w| - 1] in all && all[w[|w| - 1]].fields != [] ==> 2 * |w| <= TYPE_RESOLVE_RECURSION_LIMIT
  {
    hide Cost, Mentions, RefGraph;
    var tail := ChainFromRecord(all, w[|w| - 1]);
    var p := ChainOfWalk(all, w, tail);
    var q := ChainToMention(all, ty, r, p);
    assert Fits(all, q, 0);
  }

  lemma NoCycleFromRoot(all: RecordTypes, ty: IType, r: nat, id: nat)
    requires Bounded(all, ty, 0) && r in Mentions(ty) && (id == r || Reaches(RefGraph(all), r, id))
    ensures !Reaches(RefGraph(all), id, id)
  {
    var g := RefGraph(all);
    if Reaches(g, id, id) {
      var cycle :| |cycle| >= 2 && WalkBetween(g, cycle, id, id);
      var round := Pump(g, cycle, TYPE_RESOLVE_RECURSION_LIMIT);
      if id == r {
        BoundedWalks(all, ty, r, round);
      } else {
        var p :| |p| >= 2 && WalkBetween(g, p, r, id);
        WalkJoin(g, p, round);
        BoundedWalks(all, ty, r, p + round[1..]);
      }
      assert false;
    }
  }

  /** A cycle that the signatures can reach is always reported as an error, as is a missing record. */
  lemma ReachableCycleFails(all: RecordTypes, itypes: seq<IType>, id: nat)
    requires Needed(all, RootMentions(itypes), id)
    requires id !in all || Reaches(RefGraph(all), id, id)
    ensures GetRecordTypes(all, itypes).Err?
  {
    if GetRecordTypes(all, itypes).Ok? {
      CollectsExactlyTheNeeded(all, itypes);
      SucceedsExactlyWhenBounded(all, itypes, map[]);
      var r :| r in RootMentions(itypes) && (id == r || Reaches(RefGraph(all), r, id));
      var k :| 0 <= k < |itypes| && r in Mentions(itypes[k]);
      NoCycleFromRoot(all, itypes[k], r, id);
      assert false;
    }
  }

  lemma PartReaches(all: RecordTypes, part: RecordTypes, a: nat, b: nat)
    requires PartOf(part, all) && Reaches(RefGraph(part), a, b)
    ensures a in part && Reaches(RefGraph(all), a, b)
  {
    var p :| |p| >= 2 && WalkBetween(RefGraph(part), p, a, b);
    assert Edge(RefGraph(part), p[0], p[0 + 1]);
    forall i | 0 <= i < |p| - 1
      ensures Edge(RefGraph(all), p[i], p[i + 1])
    {
      assert Edge(RefGraph(part), p[i], p[i + 1]);
    }
    assert WalkBetween(RefGraph(all), p, a, b);
  }

  /** So the collected records form an acyclic graph. */
  lemma CollectedIsAcyclic(all: RecordTypes, itypes: seq<IType>)
    requires GetRecordTypes(all, itypes).Ok?
    ensures Acyclic(RefGraph(GetRecordTypes(all, itypes).value))
  {
    var exported := GetRecordTypes(all, itypes).value;
    CollectsExactlyTheNeeded(all, itypes);
    forall a
      ensures !Reaches(RefGraph(exported), a, a)
    {
      if Reaches(RefGraph(exported), a, a) {
        PartReaches(all, exported, a, a);
        ReachableCycleFails(all, itypes, a);
      }
    }
  }
}
