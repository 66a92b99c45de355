/**
 Requests reading catalogs through one shared cache (resolve._Reader), as a state machine
 of atomic steps: every interleaving of any number of requests is a run of it.
 */
module Requests {
  import opened Wrappers
  import opened CacheKeys
  import Sorting

  /** What a read answers with: a list the requests only pass on. */
  type Rows(==, !new)

  /** What a cache holds under a key: the value itself, or the bytes it was encoded to. */
  type Payload(==, !new)

  /** A relation as the batch names it: catalog, schema, table. */
  datatype Relation = Relation(catalog: Option<string>, schema: Option<string>, table: string)

  /** A cached read, with the arguments it is keyed by. */
  datatype Call =
    | SchemasOf(catalog: Option<string>)
    | TablesOf(schema: Option<string>, catalog: Option<string>)
    | QueryableOf(schema: Option<string>)
    | ColumnsOf(relation: Relation)
    | FunctionsOf(schema: Option<string>)
    | ValuesOf(schema: Option<string>, table: string, column: string)
    | ForeignKeysOf(schema: Option<string>)

  /** Whose reads these are: the role the caller names, and the dialect it speaks. */
  datatype Owner = Owner(identity: Option<string>, dialect: string)

  function Asked(o: Owner, call: Call): Question {
    match call
    case SchemasOf(catalog) => Question(o.identity, o.dialect, Schemas, [catalog])
    case TablesOf(schema, catalog) => Question(o.identity, o.dialect, Tables, [schema, catalog])
    case QueryableOf(schema) => Question(o.identity, o.dialect, Queryable, [schema])
    case ColumnsOf(r) => Question(o.identity, o.dialect, Columns, [r.schema, Some(r.table), r.catalog])
    case FunctionsOf(schema) => Question(o.identity, o.dialect, Functions, [schema])
    case ValuesOf(schema, table, column) => Question(o.identity, o.dialect, Values, [schema, Some(table), Some(column)])
    case ForeignKeysOf(schema) => Question(o.identity, o.dialect, ForeignKeys, [schema])
  }

  /**
   What the requests run against. The catalog one role sees in one dialect never changes while
   they run; its bulk read leaves out relations that have no columns.
   */
  datatype World = World(
    fingerprint: string,
    answer: (Owner, Call) -> Rows,
    bulk: (Owner, seq<Relation>) -> map<Relation, Rows>,
    nothing: Rows,
    decode: Payload -> Option<Rows>)  // None where the codec raises; an object cache's values are themselves

  /** The bulk read agrees with single ones, absence meaning nothing. */
  ghost predicate Consistent(w: World) {
    && ColonFree(w.fingerprint)
    && forall o, rs, r | r in rs ::
         w.answer(o, ColumnsOf(r)) == if r in w.bulk(o, rs) then w.bulk(o, rs)[r] else w.nothing
  }

  function Given(found: map<Relation, Rows>, r: Relation, nothing: Rows): Rows {
    if r in found then found[r] else nothing
  }

  /** Where a request stands between two of its atomic steps. */
  datatype Phase =
    | Idle
    | Getting(call: Call)
    | Producing(call: Call)
    | Storing(call: Call, value: Rows)
    | Scanning(todo: seq<Relation>, missing: seq<Relation>)
    | Filling(rest: seq<Relation>, found: map<Relation, Rows>)

  datatype Reader = Reader(
    owner: Owner,
    cached: bool,                  // a cache was supplied
    bulk: bool,                    // the catalog has the bulk read
    memo: map<string, Rows>,
    failed: bool,
    phase: Phase,
    answers: seq<(Call, Rows)>,    // what the request's reads have returned
    produced: seq<string>,         // the keys it has asked its catalog for, a repeat within one read once
    failures: nat)                 // cache calls that failed

  /** All requests, and everything ever handed to the shared cache to store. */
  datatype System = System(readers: map<nat, Reader>, stored: set<(string, Rows)>)

  /** What happens next in one request; the cache's answer is part of it. */
  datatype Event =
    | Ask(call: Call)
    | Hit(value: Rows)
    | Miss
    | GetFails
    | Produce
    | SetEnds(fails: bool, kept: bool)
    | Prefetch(relations: seq<Relation>)
    | Skip
    | Bulk

  datatype Action =
    | Start(id: nat, owner: Owner, cached: bool, bulk: bool)
    | Do(id: nat, event: Event)

  function KeyOf(w: World, o: Owner, call: Call): string {
    CacheKey(w.fingerprint, Asked(o, call))
  }

  predicate Usable(r: Reader) {
    r.cached && !r.failed
  }

  function Answered(r: Reader, call: Call, value: Rows): Reader {
    r.(phase := Idle, answers := r.answers + [(call, value)])
  }

  function Remembered(w: World, r: Reader, call: Call, value: Rows): Reader {
    r.(memo := r.memo[KeyOf(w, r.owner, call) := value])
  }

  /** Each of `ks` once, where it first stands. */
  function Once(ks: seq<string>): (r: seq<string>)
    ensures Sorting.Distinct(r) && forall k :: k in r <==> k in ks
  {
    if ks == [] then []
    else
      var n := |ks| - 1;
      assert ks == ks[..n] + [ks[n]];
      var before := Once(ks[..n]);
      if ks[n] in before then before else before + [ks[n]]
  }

  function ColumnKeys(w: World, o: Owner, rs: seq<Relation>): (ks: seq<string>)
    ensures |ks| == |rs| && forall i | 0 <= i < |rs| :: ks[i] == KeyOf(w, o, ColumnsOf(rs[i]))
  {
    seq(|rs|, i requires 0 <= i < |rs| => KeyOf(w, o, ColumnsOf(rs[i])))
  }

  /** `_read`: the memo, then the cache when there is one that works, then the catalog. */
  function AskStep(w: World, r: Reader, call: Call): Reader {
    var key := KeyOf(w, r.owner, call);
    if key in r.memo then Answered(r, call, r.memo[key])
    else if Usable(r) then r.(phase := Getting(call))
    else
      var value := w.answer(r.owner, call);
      Answered(Remembered(w, r, call, value), call, value).(produced := r.produced + [key])
  }

  /** A failing call to the cache switches it off for the rest of the request. */
  function Latched(r: Reader): Reader {
    r.(failed := true, failures := r.failures + 1)
  }

  /** The end of the scan: one read of all that is missing, unless that is no batch. */
  function BulkStep(w: World, r: Reader, missing: seq<Relation>): Reader {
    if |missing| < 2 then r.(phase := Idle)
    else
      r.(phase := Filling(missing, w.bulk(r.owner, missing)),
         produced := r.produced + Once(ColumnKeys(w, r.owner, missing)))
  }

  /** One relation of the batch that the cache does not settle. */
  function SkipStep(w: World, r: Reader, todo: seq<Relation>, missing: seq<Relation>): Reader
    requires todo != []
  {
    var remembered := KeyOf(w, r.owner, ColumnsOf(todo[0])) in r.memo;
    r.(phase := Scanning(todo[1..], if remembered then missing else missing + [todo[0]]))
  }

  function FillStep(w: World, r: Reader, rest: seq<Relation>, found: map<Relation, Rows>): Reader
    requires rest != []
  {
    var value := Given(found, rest[0], w.nothing);
    Remembered(w, r, ColumnsOf(rest[0]), value).(phase := if |rest| == 1 then Idle else Filling(rest[1..], found))
  }

  /** The request and the store after one event, or None when it cannot happen there. */
  function Next(w: World, r: Reader, stored: set<(string, Rows)>, e: Event): Option<(Reader, set<(string, Rows)>)> {
    match r.phase
    case Idle =>
      (match e
       case Ask(call) => Some((AskStep(w, r, call), stored))
       case Prefetch(rs) =>
         if |rs| >= 2 && r.bulk then Some((r.(phase := Scanning(rs, [])), stored)) else None
       case _ => None)
    case Getting(call) =>
      (match e
       case Hit(v) =>
         if (KeyOf(w, r.owner, call), v) in stored
         then Some((Answered(Remembered(w, r, call, v), call, v), stored)) else None
       case Miss => Some((r.(phase := Producing(call)), stored))
       case GetFails => Some((Latched(r).(phase := Producing(call)), stored))
       case _ => None)
    case Producing(call) =>
      if e.Produce? then
        Some((r.(phase := Storing(call, w.answer(r.owner, call)),
                 produced := r.produced + [KeyOf(w, r.owner, call)]), stored))
      else None
    case Storing(call, v) =>
      (match e
       case SetEnds(fails, kept) =>
         var entry := (KeyOf(w, r.owner, call), v);
         Some((Answered(Remembered(w, if fails then Latched(r) else r, call, v), call, v),
               if kept then stored + {entry} else stored))
       case _ => None)
    case Scanning(todo, missing) =>
      if todo == [] then
        if e.Bulk? then Some((BulkStep(w, r, missing), stored)) else None
      else
        var key := KeyOf(w, r.owner, ColumnsOf(todo[0]));
        if key in r.memo || !Usable(r) then
          if e.Skip? then Some((SkipStep(w, r, todo, missing), stored)) else None
        else
          (match e
           case Hit(v) =>
             if (key, v) in stored
             then Some((Remembered(w, r, ColumnsOf(todo[0]), v).(phase := Scanning(todo[1..], missing)), stored))
             else None
           case Miss => Some((SkipStep(w, r, todo, missing), stored))
           case GetFails => Some((Latched(SkipStep(w, r, todo, missing)), stored))
           case _ => None)
    case Filling(rest, found) =>
      if rest == [] then None
      else if !Usable(r) then
        if e.Skip? then Some((FillStep(w, r, rest, found), stored)) else None
      else
        (match e
         case SetEnds(fails, kept) =>
           var entry := (KeyOf(w, r.owner, ColumnsOf(rest[0])), Given(found, rest[0], w.nothing));
           var filled := FillStep(w, r, rest, found);
           Some((if fails then Latched(filled) else filled, if kept then stored + {entry} else stored))
         case _ => None)
  }

  function Apply(w: World, s: System, a: Action): System {
    match a
    case Start(id, owner, cached, bulk) =>
      if id in s.readers then s
      else s.(readers := s.readers[id := Reader(owner, cached, bulk, map[], false, Idle, [], [], 0)])
    case Do(id, e) =>
      if id !in s.readers then s
      else
        var next := Next(w, s.readers[id], s.stored, e);
        if next.None? then s else System(s.readers[id := next.value.0], next.value.1)
  }

  /** A run: requests start and step in any order; what cannot happen changes nothing. */
  function Run(w: World, actions: seq<Action>): System {
    if actions == [] then System(map[], {})
    else Apply(w, Run(w, actions[..|actions| - 1]), actions[|actions| - 1])
  }

  // -------------------------------------------------------------- what every run keeps

  /** The cache is only ever given what some single read would give it. */
  ghost predicate StoreExact(w: World, stored: set<(string, Rows)>) {
    forall k, v | (k, v) in stored :: exists o, call :: k == KeyOf(w, o, call) && v == w.answer(o, call)
  }

  /** Whatever it was given under a read's key is that read's answer, for that role and no other. */
  ghost predicate StoreTrue(w: World, stored: set<(string, Rows)>) {
    forall o, call, v | (KeyOf(w, o, call), v) in stored :: v == w.answer(o, call)
  }

  /** What a request remembers under a read's key is what its own role would be told. */
  ghost predicate MemoTrue(w: World, o: Owner, memo: map<string, Rows>) {
    forall call | KeyOf(w, o, call) in memo :: memo[KeyOf(w, o, call)] == w.answer(o, call)
  }

  ghost predicate AnswersTrue(w: World, r: Reader) {
    forall i | 0 <= i < |r.answers| :: r.answers[i].1 == w.answer(r.owner, r.answers[i].0)
  }

  /** The keys a request has fetched and not yet remembered. */
  function Pending(w: World, r: Reader): seq<string> {
    match r.phase
    case Storing(call, _) => [KeyOf(w, r.owner, call)]
    case Filling(rest, _) => ColumnKeys(w, r.owner, rest)
    case _ => []
  }

  ghost predicate PhaseSound(w: World, r: Reader) {
    match r.phase
    case Idle => true
    case Getting(call) => KeyOf(w, r.owner, call) !in r.memo && Usable(r)
    case Producing(call) => KeyOf(w, r.owner, call) !in r.memo && r.cached && (r.failed ==> r.failures == 1)
    case Storing(call, v) => v == w.answer(r.owner, call) && r.cached && (r.failed ==> r.failures == 1)
    case Scanning(todo, missing) =>
      forall i | 0 <= i < |missing| :: KeyOf(w, r.owner, ColumnsOf(missing[i])) !in r.produced
    case Filling(rest, found) =>
      && rest != []
      && forall i | 0 <= i < |rest| :: Given(found, rest[i], w.nothing) == w.answer(r.owner, ColumnsOf(rest[i]))
  }

  /** No key is fetched twice: what was fetched is remembered or about to be. */
  ghost predicate FetchedOnce(w: World, r: Reader) {
    && Sorting.Distinct(r.produced)
    && forall i | 0 <= i < |r.produced| :: r.produced[i] in r.memo || r.produced[i] in Pending(w, r)
  }

  predicate FailuresBounded(r: Reader) {
    r.failures <= 2 && (!r.failed ==> r.failures == 0)
  }

  ghost predicate ReaderSound(w: World, r: Reader) {
    MemoTrue(w, r.owner, r.memo) && AnswersTrue(w, r) && PhaseSound(w, r) && FetchedOnce(w, r) && FailuresBounded(r)
  }

  ghost predicate Sound(w: World, s: System) {
    StoreExact(w, s.stored) && forall id | id in s.readers :: ReaderSound(w, s.readers[id])
  }

  /** Two reads share a key only when they are one read by one role in one dialect. */
  lemma KeysTellApart(w: World, o: Owner, call: Call, o': Owner, call': Call)
    requires ColonFree(w.fingerprint) && KeyOf(w, o, call) == KeyOf(w, o', call')
    ensures o == o' && call == call'
  {
    hide CacheKey;
    KeysAreInjective(w.fingerprint, Asked(o, call), Asked(o', call'));
  }

  /** What a read's key says when it is read back: role, dialect, kind and the path the read is scoped to. */
  lemma KeysSayWhatIsRead(w: World, o: Owner, catalog: Option<string>, schema: Option<string>, table: string,
                          column: string)
    requires ColonFree(w.fingerprint)
    ensures var (i, d) := (o.identity, o.dialect);
            && ReadKey(KeyOf(w, o, SchemasOf(catalog))) == Some(Question(i, d, Schemas, [catalog]))
            && ReadKey(KeyOf(w, o, TablesOf(schema, catalog))) == Some(Question(i, d, Tables, [schema, catalog]))
            && ReadKey(KeyOf(w, o, QueryableOf(schema))) == Some(Question(i, d, Queryable, [schema]))
            && ReadKey(KeyOf(w, o, ColumnsOf(Relation(catalog, schema, table))))
               == Some(Question(i, d, Columns, [schema, Some(table), catalog]))
            && ReadKey(KeyOf(w, o, FunctionsOf(schema))) == Some(Question(i, d, Functions, [schema]))
            && ReadKey(KeyOf(w, o, ValuesOf(schema, table, column)))
               == Some(Question(i, d, Values, [schema, Some(table), Some(column)]))
            && ReadKey(KeyOf(w, o, ForeignKeysOf(schema))) == Some(Question(i, d, ForeignKeys, [schema]))
  {
    hide CacheKey, ReadKey;
    KeyRoundTrip(w.fingerprint, Asked(o, SchemasOf(catalog)));
    KeyRoundTrip(w.fingerprint, Asked(o, TablesOf(schema, catalog)));
    KeyRoundTrip(w.fingerprint, Asked(o, QueryableOf(schema)));
    KeyRoundTrip(w.fingerprint, Asked(o, ColumnsOf(Relation(catalog, schema, table))));
    KeyRoundTrip(w.fingerprint, Asked(o, FunctionsOf(schema)));
    KeyRoundTrip(w.fingerprint, Asked(o, ValuesOf(schema, table, column)));
    KeyRoundTrip(w.fingerprint, Asked(o, ForeignKeysOf(schema)));
  }

  lemma RememberingKeepsTruth(w: World, o: Owner, memo: map<string, Rows>, call: Call)
    requires ColonFree(w.fingerprint) && MemoTrue(w, o, memo)
    ensures MemoTrue(w, o, memo[KeyOf(w, o, call) := w.answer(o, call)])
  {
    hide KeyOf;
    var memo' := memo[KeyOf(w, o, call) := w.answer(o, call)];
    forall call' | KeyOf(w, o, call') in memo' ensures memo'[KeyOf(w, o, call')] == w.answer(o, call') {
      if KeyOf(w, o, call') == KeyOf(w, o, call) {
        KeysTellApart(w, o, call, o, call');
      }
    }
  }

  lemma ExactIsTrue(w: World, stored: set<(string, Rows)>)
    requires ColonFree(w.fingerprint) && StoreExact(w, stored)
    ensures StoreTrue(w, stored)
  {
    hide KeyOf;
    forall o, call, v | (KeyOf(w, o, call), v) in stored ensures v == w.answer(o, call) {
      var o', call' :| KeyOf(w, o, call) == KeyOf(w, o', call') && v == w.answer(o', call');
      KeysTellApart(w, o, call, o', call');
    }
  }

  lemma StoringIsExact(w: World, o: Owner, stored: set<(string, Rows)>, call: Call)
    requires StoreExact(w, stored)
    ensures StoreExact(w, stored + {(KeyOf(w, o, call), w.answer(o, call))})
  {
    hide KeyOf;
  }

  lemma AskIsSound(w: World, r: Reader, call: Call)
    requires ColonFree(w.fingerprint) && ReaderSound(w, r) && r.phase.Idle?
    ensures ReaderSound(w, AskStep(w, r, call))
  {
    hide KeyOf;
    if KeyOf(w, r.owner, call) !in r.memo {
      RememberingKeepsTruth(w, r.owner, r.memo, call);
    }
  }

  /** An answer that is already in the store, or freshly fetched, is remembered and returned. */
  lemma AnsweringIsSound(w: World, r: Reader, call: Call)
    requires ColonFree(w.fingerprint) && ReaderSound(w, r)
    requires (r.phase.Getting? || r.phase.Storing?) && r.phase.call == call
    ensures ReaderSound(w, Answered(Remembered(w, r, call, w.answer(r.owner, call)), call, w.answer(r.owner, call)))
  {
    hide KeyOf;
    RememberingKeepsTruth(w, r.owner, r.memo, call);
  }

  /** Moving between phases that owe nothing leaves every fetched key accounted for. */
  lemma PhaseKeepsFetched(w: World, r: Reader, r': Reader)
    requires FetchedOnce(w, r) && Pending(w, r) == [] && r'.memo == r.memo && r'.produced == r.produced
    ensures FetchedOnce(w, r')
  {
  }

  lemma LatchingIsSound(w: World, r: Reader)
    requires ReaderSound(w, r) && r.failures <= 1 && !r.phase.Getting?
    requires r.phase.Producing? || r.phase.Storing? ==> r.failures == 0
    ensures ReaderSound(w, Latched(r))
  {
    hide KeyOf;
  }

  lemma ProducingIsSound(w: World, r: Reader)
    requires ReaderSound(w, r) && r.phase.Producing?
    ensures ReaderSound(w, r.(phase := Storing(r.phase.call, w.answer(r.owner, r.phase.call)),
                              produced := r.produced + [KeyOf(w, r.owner, r.phase.call)]))
  {
    hide KeyOf;
  }

  lemma SkippingIsSound(w: World, r: Reader)
    requires ReaderSound(w, r) && r.phase.Scanning? && r.phase.todo != []
    ensures ReaderSound(w, SkipStep(w, r, r.phase.todo, r.phase.missing))
  {
    hide KeyOf;
    var key := KeyOf(w, r.owner, ColumnsOf(r.phase.todo[0]));
    if key in r.produced {
      var i :| 0 <= i < |r.produced| && r.produced[i] == key;
      assert r.produced[i] in r.memo;
    }
  }

  lemma ScanHitIsSound(w: World, r: Reader)
    requires ColonFree(w.fingerprint) && ReaderSound(w, r) && r.phase.Scanning? && r.phase.todo != []
    ensures var c := ColumnsOf(r.phase.todo[0]);
            var next := Scanning(r.phase.todo[1..], r.phase.missing);
            ReaderSound(w, Remembered(w, r, c, w.answer(r.owner, c)).(phase := next))
  {
    hide KeyOf;
    RememberingKeepsTruth(w, r.owner, r.memo, ColumnsOf(r.phase.todo[0]));
  }

  /** What is fetched for the first time, each once, joins what was fetched before. */
  lemma FetchingOnce(w: World, r: Reader, missing: seq<Relation>)
    requires FetchedOnce(w, r) && Pending(w, r) == []
    requires forall i | 0 <= i < |missing| :: KeyOf(w, r.owner, ColumnsOf(missing[i])) !in r.produced
    ensures var keys := ColumnKeys(w, r.owner, missing);
            && Sorting.Distinct(r.produced + Once(keys))
            && forall k | k in r.produced + Once(keys) :: k in r.memo || k in keys
  {
    hide KeyOf;
    var keys := ColumnKeys(w, r.owner, missing);
    forall k | k in r.produced ensures k in r.memo && k !in Once(keys) {
      var i :| 0 <= i < |r.produced| && r.produced[i] == k;
      assert r.produced[i] in r.memo;
    }
    var all := r.produced + Once(keys);
    forall i, j | 0 <= i < j < |all| ensures all[i] != all[j] {
      assert i < |r.produced| <= j ==> all[i] in r.produced && all[j] in Once(keys);
    }
  }

  lemma BulkIsSound(w: World, r: Reader)
    requires Consistent(w) && ReaderSound(w, r) && r.phase.Scanning? && r.phase.todo == []
    ensures ReaderSound(w, BulkStep(w, r, r.phase.missing))
  {
    hide KeyOf;
    var missing := r.phase.missing;
    if |missing| >= 2 {
      FetchingOnce(w, r, missing);
    }
  }

  lemma FillingIsSound(w: World, r: Reader)
    requires ColonFree(w.fingerprint) && ReaderSound(w, r) && r.phase.Filling? && r.phase.rest != []
    ensures ReaderSound(w, FillStep(w, r, r.phase.rest, r.phase.found))
  {
    hide KeyOf;
    var rest := r.phase.rest;
    RememberingKeepsTruth(w, r.owner, r.memo, ColumnsOf(rest[0]));
    var keys := ColumnKeys(w, r.owner, rest);
    assert forall k | k in keys :: k == keys[0] || k in keys[1..];
    assert keys[1..] == ColumnKeys(w, r.owner, rest[1..]);
  }

  /** One event of one request keeps that request sound and the store true. */
  lemma NextIsSound(w: World, r: Reader, stored: set<(string, Rows)>, e: Event)
    requires Consistent(w) && ReaderSound(w, r) && StoreExact(w, stored) && Next(w, r, stored, e).Some?
    ensures ReaderSound(w, Next(w, r, stored, e).value.0) && StoreExact(w, Next(w, r, stored, e).value.1)
    ensures Next(w, r, stored, e).value.0.owner == r.owner
  {
    hide KeyOf, MemoTrue, FetchedOnce, StoreExact;
    ExactIsTrue(w, stored);
    var r' := Next(w, r, stored, e).value.0;
    match r.phase
    case Idle =>
      if e.Ask? { AskIsSound(w, r, e.call); }
      else { assert FetchedOnce(w, r') by { PhaseKeepsFetched(w, r, r'); } }
    case Getting(call) =>
      if e.Hit? { assert e.value == w.answer(r.owner, call); AnsweringIsSound(w, r, call); }
      else { assert FetchedOnce(w, r') by { PhaseKeepsFetched(w, r, r'); } }
    case Producing(call) => ProducingIsSound(w, r);
    case Storing(call, v) =>
      AnsweringIsSound(w, r, call);
      StoringIsExact(w, r.owner, stored, call);
      if e.fails { LatchingIsSound(w, Answered(Remembered(w, r, call, v), call, v)); }
    case Scanning(todo, missing) =>
      if todo == [] { BulkIsSound(w, r); }
      else if e.Hit? { ScanHitIsSound(w, r); }
      else {
        SkippingIsSound(w, r);
        if e.GetFails? { LatchingIsSound(w, SkipStep(w, r, todo, missing)); }
      }
    case Filling(rest, found) =>
      FillingIsSound(w, r);
      StoringIsExact(w, r.owner, stored, ColumnsOf(rest[0]));
      if e.SetEnds? && e.fails { LatchingIsSound(w, FillStep(w, r, rest, found)); }
  }

  /**
   However requests interleave over one shared cache that misses, drops or fails as it likes:
   every answer is what that request's own role would be told with no cache at all, no request
   fetches a key twice, at most two cache calls fail in one request, and the cache is only ever
   given what a single read of its key would have given it, batched or not.
   */
  lemma {:induction false} EveryRunIsSound(w: World, actions: seq<Action>)
    requires Consistent(w)
    ensures Sound(w, Run(w, actions))
  {
    hide KeyOf, Next, ReaderSound, StoreExact;
    if actions == [] {
      NothingStoredIsExact(w);
    } else {
      var s, a := Run(w, actions[..|actions| - 1]), actions[|actions| - 1];
      EveryRunIsSound(w, actions[..|actions| - 1]);
      match a
      case Start(id, owner, cached, bulk) => FreshIsSound(w, owner, cached, bulk);
      case Do(id, e) =>
        if id in s.readers && Next(w, s.readers[id], s.stored, e).Some? {
          NextIsSound(w, s.readers[id], s.stored, e);
        }
    }
  }

  lemma NothingStoredIsExact(w: World)
    ensures StoreExact(w, {})
  {
  }

  lemma FreshIsSound(w: World, owner: Owner, cached: bool, bulk: bool)
    ensures ReaderSound(w, Reader(owner, cached, bulk, map[], false, Idle, [], [], 0))
  {
  }

  /** Isolation and transparency, as a caller sees them. */
  lemma RolesAreIsolated(w: World, actions: seq<Action>, id: nat, i: nat)
    requires Consistent(w) && id in Run(w, actions).readers && i < |Run(w, actions).readers[id].answers|
    ensures var r := Run(w, actions).readers[id];
            r.answers[i].1 == w.answer(r.owner, r.answers[i].0)
  {
    hide Run, KeyOf;
    EveryRunIsSound(w, actions);
  }

  lemma LastAnswerIsTrue(w: World, r: Reader)
    requires ReaderSound(w, r) && r.answers != []
    ensures var last := r.answers[|r.answers| - 1]; last.1 == w.answer(r.owner, last.0)
  {
  }

  /**
   With a cache or without, batched or not, alone or among others: two requests of one role and
   dialect that ask the same thing are told the same thing.
   */
  lemma AnswersDependOnTheRoleAlone(w: World, actions: seq<Action>, id: nat, i: nat, actions': seq<Action>, id': nat,
                                    i': nat)
    requires Consistent(w)
    requires id in Run(w, actions).readers && i < |Run(w, actions).readers[id].answers|
    requires id' in Run(w, actions').readers && i' < |Run(w, actions').readers[id'].answers|
    requires Run(w, actions).readers[id].owner == Run(w, actions').readers[id'].owner
    requires Run(w, actions).readers[id].answers[i].0 == Run(w, actions').readers[id'].answers[i'].0
    ensures Run(w, actions).readers[id].answers[i].1 == Run(w, actions').readers[id'].answers[i'].1
  {
    hide Run, KeyOf;
    RolesAreIsolated(w, actions, id, i);
    RolesAreIsolated(w, actions', id', i');
  }

  /** How many more steps a request in this phase can take before it is idle again. */
  function StepsLeft(p: Phase): nat {
    match p
    case Idle => 0
    case Storing(_, _) => 1
    case Producing(_) => 2
    case Getting(_) => 3
    case Filling(rest, _) => |rest|
    case Scanning(todo, missing) => 2 * |todo| + |missing| + 1
  }

  /** The one event that needs nothing from the cache. */
  function Silent(r: Reader): Event {
    match r.phase
    case Idle => Miss
    case Getting(_) => Miss
    case Producing(_) => Produce
    case Storing(_, _) => SetEnds(false, false)
    case Scanning(todo, _) => if todo == [] then Bulk else Miss
    case Filling(_, _) => SetEnds(false, false)
  }

  /** A busy request is never stuck, and whatever happens to it brings it nearer to being idle. */
  lemma BusyRequestsFinish(w: World, r: Reader, stored: set<(string, Rows)>, e: Event)
    requires ReaderSound(w, r) && r.phase != Idle
    ensures exists e' :: Next(w, r, stored, e').Some?
    ensures Next(w, r, stored, e).Some? ==> StepsLeft(Next(w, r, stored, e).value.0.phase) < StepsLeft(r.phase)
  {
    hide KeyOf;
    assert Next(w, r, stored, Silent(r)).Some? || Next(w, r, stored, Skip).Some?;
  }

  // ------------------------------------------------------------- the reader itself

  /** What one cache call came to: something held there, nothing, or an exception. */
  datatype Outcome = Held(payload: Payload) | Nothing | Failed

  /** The value a call yields: none where nothing is held, and none where what is held cannot be decoded. */
  function Found(w: World, got: Outcome): Option<Rows> {
    if got.Held? then w.decode(got.payload) else None
  }

  /** The events of one call, made one after another with no other request in between. */
  function Steps(w: World, r: Reader, stored: set<(string, Rows)>,
                 events: seq<Event>): Option<(Reader, set<(string, Rows)>)> {
    if events == [] then Some((r, stored))
    else
      var before := Steps(w, r, stored, events[..|events| - 1]);
      if before.None? then None else Next(w, before.value.0, before.value.1, events[|events| - 1])
  }

  /** One more event after those that led to `now`. */
  lemma Then(w: World, r: Reader, stored: set<(string, Rows)>, events: seq<Event>, now: Reader,
             kept: set<(string, Rows)>, e: Event)
    requires Steps(w, r, stored, events) == Some((now, kept))
    ensures Steps(w, r, stored, events + [e]) == Next(w, now, kept, e)
  {
    assert (events + [e])[..|events|] == events;
  }

  lemma NoSteps(w: World, r: Reader, stored: set<(string, Rows)>)
    ensures Steps(w, r, stored, []) == Some((r, stored))
  {
  }

  lemma AskRuns(w: World, r: Reader, stored: set<(string, Rows)>, call: Call)
    requires r.phase.Idle?
    ensures Steps(w, r, stored, [Ask(call)]) == Some((AskStep(w, r, call), stored))
  {
    hide KeyOf;
    assert [] + [Ask(call)] == [Ask(call)];
    Then(w, r, stored, [], r, stored, Ask(call));
  }

  lemma HitRuns(w: World, r: Reader, stored: set<(string, Rows)>, call: Call, v: Rows)
    requires r.phase.Idle? && KeyOf(w, r.owner, call) !in r.memo && Usable(r)
    requires (KeyOf(w, r.owner, call), v) in stored
    ensures Steps(w, r, stored, [Ask(call), Hit(v)]) == Some((Answered(Remembered(w, r, call, v), call, v), stored))
  {
    hide KeyOf, Steps;
    AskRuns(w, r, stored, call);
    Then(w, r, stored, [Ask(call)], r.(phase := Getting(call)), stored, Hit(v));
    assert [Ask(call)] + [Hit(v)] == [Ask(call), Hit(v)];
  }

  /** What a read that the cache did not answer leaves behind. */
  function Fetched(w: World, r: Reader, call: Call, getFails: bool, setFails: bool): Reader {
    var value := w.answer(r.owner, call);
    var failures := (if getFails then 1 else 0) + if setFails then 1 else 0;
    r.(memo := r.memo[KeyOf(w, r.owner, call) := value],
       failed := r.failed || getFails || setFails,
       answers := r.answers + [(call, value)],
       produced := r.produced + [KeyOf(w, r.owner, call)],
       failures := r.failures + failures)
  }

  lemma MissRuns(w: World, r: Reader, stored: set<(string, Rows)>, call: Call, getFails: bool, setFails: bool,
                 kept: bool)
    requires r.phase.Idle? && KeyOf(w, r.owner, call) !in r.memo && Usable(r)
    ensures Steps(w, r, stored, [Ask(call), if getFails then GetFails else Miss, Produce, SetEnds(setFails, kept)])
         == Some((Fetched(w, r, call, getFails, setFails),
                  if kept then stored + {(KeyOf(w, r.owner, call), w.answer(r.owner, call))} else stored))
  {
    hide KeyOf, Steps;
    var e := if getFails then GetFails else Miss;
    var value := w.answer(r.owner, call);
    var producing := (if getFails then Latched(r) else r).(phase := Producing(call));
    var storing := producing.(phase := Storing(call, value), produced := r.produced + [KeyOf(w, r.owner, call)]);
    AskRuns(w, r, stored, call);
    Then(w, r, stored, [Ask(call)], r.(phase := Getting(call)), stored, e);
    assert [Ask(call)] + [e] == [Ask(call), e];
    Then(w, r, stored, [Ask(call), e], producing, stored, Produce);
    assert [Ask(call), e] + [Produce] == [Ask(call), e, Produce];
    Then(w, r, stored, [Ask(call), e, Produce], storing, stored, SetEnds(setFails, kept));
    assert [Ask(call), e, Produce] + [SetEnds(setFails, kept)] == [Ask(call), e, Produce, SetEnds(setFails, kept)];
  }

  lemma {:induction false} StepsAreSound(w: World, r: Reader, stored: set<(string, Rows)>, events: seq<Event>)
    requires Consistent(w) && ReaderSound(w, r) && StoreExact(w, stored) && Steps(w, r, stored, events).Some?
    ensures ReaderSound(w, Steps(w, r, stored, events).value.0) && StoreExact(w, Steps(w, r, stored, events).value.1)
    ensures Steps(w, r, stored, events).value.0.owner == r.owner
  {
    hide Next, ReaderSound, StoreExact;
    if events != [] {
      var front := events[..|events| - 1];
      StepsAreSound(w, r, stored, front);
      var before := Steps(w, r, stored, front).value;
      NextIsSound(w, before.0, before.1, events[|events| - 1]);
    }
  }

  /** The event by which a batch settles its next relation, given what the cache would say. */
  function ScanEvent(w: World, r: Reader, got: Outcome): Event
    requires r.phase.Scanning? && r.phase.todo != []
  {
    if KeyOf(w, r.owner, ColumnsOf(r.phase.todo[0])) in r.memo || !Usable(r) then Skip
    else if Found(w, got).Some? then Hit(Found(w, got).value)
    else if got.Failed? then GetFails
    else Miss
  }

  lemma ScanRuns(w: World, r: Reader, stored: set<(string, Rows)>, got: Outcome)
    requires r.phase.Scanning? && r.phase.todo != []
    requires Found(w, got).Some? ==> (KeyOf(w, r.owner, ColumnsOf(r.phase.todo[0])), Found(w, got).value) in stored
    ensures var key := KeyOf(w, r.owner, ColumnsOf(r.phase.todo[0]));
            var asked := key !in r.memo && Usable(r);
            var fails := asked && got.Failed?;
            var memo := if asked && Found(w, got).Some? then r.memo[key := Found(w, got).value] else r.memo;
            var missing := if key in memo then r.phase.missing else r.phase.missing + [r.phase.todo[0]];
            Next(w, r, stored, ScanEvent(w, r, got))
              == Some((r.(memo := memo,
                          failed := r.failed || fails,
                          failures := r.failures + if fails then 1 else 0,
                          phase := Scanning(r.phase.todo[1..], missing)),
                       stored))
  {
    hide KeyOf;
  }

  lemma PrefetchRuns(w: World, r: Reader, stored: set<(string, Rows)>, relations: seq<Relation>)
    requires r.phase.Idle? && r.bulk && |relations| >= 2
    ensures Steps(w, r, stored, [Prefetch(relations)]) == Some((r.(phase := Scanning(relations, [])), stored))
  {
    assert [] + [Prefetch(relations)] == [Prefetch(relations)];
    Then(w, r, stored, [], r, stored, Prefetch(relations));
  }

  lemma BulkRuns(w: World, r: Reader, stored: set<(string, Rows)>)
    requires r.phase.Scanning? && r.phase.todo == []
    ensures Next(w, r, stored, Bulk) == Some((BulkStep(w, r, r.phase.missing), stored))
  {
  }

  lemma AllSettle(w: World, r: Reader, got: Outcome, setFails: bool, kept: bool)
    ensures r.phase.Scanning? && r.phase.todo != [] ==> Settles(ScanEvent(w, r, got))
    ensures Settles(FillEvent(r, setFails, kept)) && Settles(Bulk)
  {
    hide KeyOf;
  }

  function FillEvent(r: Reader, setFails: bool, kept: bool): Event {
    if Usable(r) then SetEnds(setFails, kept) else Skip
  }

  lemma FillRuns(w: World, r: Reader, stored: set<(string, Rows)>, setFails: bool, kept: bool)
    requires r.phase.Filling? && r.phase.rest != []
    ensures var first := ColumnsOf(r.phase.rest[0]);
            var value := Given(r.phase.found, r.phase.rest[0], w.nothing);
            var fails := Usable(r) && setFails;
            Next(w, r, stored, FillEvent(r, setFails, kept))
              == Some((r.(memo := r.memo[KeyOf(w, r.owner, first) := value],
                          failed := r.failed || fails,
                          failures := r.failures + if fails then 1 else 0,
                          phase := if |r.phase.rest| == 1 then Idle else Filling(r.phase.rest[1..], r.phase.found)),
                       if Usable(r) && kept then stored + {(KeyOf(w, r.owner, first), value)} else stored))
  {
    hide KeyOf;
  }

  // ------------------------------------------------------------ what a batch leaves

  predicate Remembers(w: World, r: Reader, x: Relation) {
    KeyOf(w, r.owner, ColumnsOf(x)) in r.memo
  }

  /** An event that begins nothing. */
  predicate Settles(e: Event) {
    !e.Ask? && !e.Prefetch?
  }

  /** What comes after the first event begins nothing. */
  predicate OneBatch(events: seq<Event>) {
    forall i | 0 < i < |events| :: Settles(events[i])
  }

  lemma OneBatchGrows(events: seq<Event>, e: Event)
    requires OneBatch(events) && Settles(e)
    ensures OneBatch(events + [e])
  {
  }

  lemma OneBatchBegins(e: Event)
    ensures OneBatch([]) && OneBatch([e])
  {
  }

  /** Nothing has been missed so far, and the cache may still be asked. */
  predicate AllHeld(was: Reader, events: seq<Event>) {
    was.cached && !was.failed && forall e | e in events :: e != Miss && e != GetFails
  }

  /** What has been fetched since `was` are columns of these relations that were not remembered then. */
  ghost predicate OnlyMissing(w: World, was: Reader, rs: seq<Relation>, now: Reader) {
    && was.produced <= now.produced
    && forall key | key in now.produced[|was.produced|..] ::
         key !in was.memo && exists x :: x in rs && key == KeyOf(w, was.owner, ColumnsOf(x))
  }

  /** How far a batch over `rs`, begun at `was`, has come at `now`. */
  ghost predicate Batching(w: World, was: Reader, rs: seq<Relation>, now: Reader, held: bool) {
    && now.owner == was.owner && now.cached == was.cached && now.answers == was.answers
    && (forall key | key in was.memo :: key in now.memo) && OnlyMissing(w, was, rs, now)
    && (held ==> now.produced == was.produced && !now.failed)
    && match now.phase
       case Idle => forall x, y | x in rs && y in rs && !Remembers(w, now, x) && !Remembers(w, now, y) :: x == y
       case Scanning(todo, missing) =>
         && now.produced == was.produced && (held ==> missing == [])
         && (forall x | x in rs :: x in todo || x in missing || Remembers(w, now, x))
         && (forall x | x in todo :: x in rs)
         && (forall x | x in missing :: x in rs && !Remembers(w, was, x))
       case Filling(rest, _) => rest != [] && !held && forall x | x in rs :: x in rest || Remembers(w, now, x)
       case _ => false
  }

  /** While the cache may not be asked, nothing is asked of it or given to it. */
  predicate LeavesCache(was: Reader, before: set<(string, Rows)>, now: Reader, after: set<(string, Rows)>) {
    !Usable(was) ==> now.failed == was.failed && now.failures == was.failures && after == before
  }

  lemma BatchStep(w: World, was: Reader, before: set<(string, Rows)>, rs: seq<Relation>, now: Reader,
                  stored: set<(string, Rows)>, events: seq<Event>, e: Event)
    requires Batching(w, was, rs, now, AllHeld(was, events)) && LeavesCache(was, before, now, stored)
    requires Settles(e) && Next(w, now, stored, e).Some?
    ensures var (now', stored') := Next(w, now, stored, e).value;
            Batching(w, was, rs, now', AllHeld(was, events + [e])) && LeavesCache(was, before, now', stored')
  {
    hide KeyOf, OnlyMissing;
    var now' := Next(w, now, stored, e).value.0;
    HeldGrows(was, events, e);
    if now'.produced == now.produced {
      FetchedAlike(w, was, rs, now, now');
    }
    if now.phase.Scanning? && now.phase.todo == [] {
      BulkIsOfMissing(w, was, rs, now, now.phase.missing);
    } else if now.phase.Scanning? {
      hide OnlyMissing, Remembers, AllHeld, LeavesCache;
      ScanStep(w, was, rs, now, stored, AllHeld(was, events), e);
      Unasked(w, was, before, now, stored, e);
    } else {
      hide OnlyMissing, Remembers, AllHeld, LeavesCache;
      FillingStep(w, was, rs, now, stored, AllHeld(was, events), e);
      Unasked(w, was, before, now, stored, e);
    }
  }

  lemma Unasked(w: World, was: Reader, before: set<(string, Rows)>, now: Reader, stored: set<(string, Rows)>, e: Event)
    requires LeavesCache(was, before, now, stored) && now.cached == was.cached && Next(w, now, stored, e).Some?
    requires (now.phase.Scanning? && now.phase.todo != []) || now.phase.Filling?
    ensures var (now', stored') := Next(w, now, stored, e).value; LeavesCache(was, before, now', stored')
  {
    hide KeyOf;
  }

  lemma ScanStep(w: World, was: Reader, rs: seq<Relation>, now: Reader, stored: set<(string, Rows)>, held: bool,
                 e: Event)
    requires now.phase.Scanning? && now.phase.todo != [] && Next(w, now, stored, e).Some?
    requires Batching(w, was, rs, now, held) && (held ==> now.cached)
    ensures var now', todo := Next(w, now, stored, e).value.0, now.phase.todo[1..];
            && now'.owner == now.owner && now'.cached == now.cached && now'.answers == now.answers
            && now'.produced == now.produced
            && (forall key | key in now.memo :: key in now'.memo)
            && now'.phase.Scanning? && now'.phase.todo == todo
            && (forall x | x in rs :: x in todo || x in now'.phase.missing || Remembers(w, now', x))
            && (forall x | x in todo :: x in rs)
            && (forall x | x in now'.phase.missing :: x in rs && !Remembers(w, was, x))
            && (held && e != Miss && e != GetFails ==> now'.phase.missing == [] && !now'.failed)
  {
    hide KeyOf, OnlyMissing;
    var first := now.phase.todo[0];
    assert now.phase.todo == [first] + now.phase.todo[1..];
  }

  lemma FillingStep(w: World, was: Reader, rs: seq<Relation>, now: Reader, stored: set<(string, Rows)>, held: bool,
                    e: Event)
    requires now.phase.Filling? && Next(w, now, stored, e).Some? && Batching(w, was, rs, now, held)
    ensures var now', rest := Next(w, now, stored, e).value.0, now.phase.rest[1..];
            && now'.owner == now.owner && now'.cached == now.cached && now'.answers == now.answers
            && now'.produced == now.produced
            && (forall key | key in now.memo :: key in now'.memo)
            && (forall x | x in rs :: x in rest || Remembers(w, now', x))
            && if rest == [] then now'.phase == Idle else now'.phase.Filling? && now'.phase.rest == rest
  {
    hide KeyOf, OnlyMissing;
    assert now.phase.rest == [now.phase.rest[0]] + now.phase.rest[1..];
  }

  lemma HeldGrows(was: Reader, events: seq<Event>, e: Event)
    ensures AllHeld(was, events + [e]) <==> AllHeld(was, events) && e != Miss && e != GetFails
  {
    assert e in events + [e];
    assert forall x :: x in events + [e] <==> x in events || x == e;
  }

  lemma FetchedAlike(w: World, was: Reader, rs: seq<Relation>, now: Reader, now': Reader)
    requires OnlyMissing(w, was, rs, now) && now'.produced == now.produced
    ensures OnlyMissing(w, was, rs, now')
  {
  }

  lemma BulkIsOfMissing(w: World, was: Reader, rs: seq<Relation>, now: Reader, missing: seq<Relation>)
    requires OnlyMissing(w, was, rs, now) && now.owner == was.owner && now.produced == was.produced
    requires forall x | x in missing :: x in rs && !Remembers(w, was, x)
    ensures OnlyMissing(w, was, rs, BulkStep(w, now, missing))
  {
    hide KeyOf;
    var keys := ColumnKeys(w, now.owner, missing);
    forall key | key in Once(keys)
      ensures key !in was.memo && exists x :: x in rs && key == KeyOf(w, was.owner, ColumnsOf(x))
    {
      var i :| 0 <= i < |keys| && keys[i] == key;
      assert missing[i] in rs;
    }
    assert (now.produced + Once(keys))[|was.produced|..] == Once(keys);
  }

  /**
   A batch, however the cache answers: what was remembered still is; once it is over, all its relations are but
   one at most; it has fetched columns of those relations only, and only what was not remembered; nothing at
   all, if the cache held all it was asked for; and it has left a cache alone that is none or has failed.
   */
  lemma {:induction false} BatchLeaves(w: World, was: Reader, stored: set<(string, Rows)>, rs: seq<Relation>,
                                       events: seq<Event>)
    requires was.phase.Idle? && events != [] && events[0] == Prefetch(rs)
    requires OneBatch(events) && Steps(w, was, stored, events).Some?
    ensures var (now, after) := Steps(w, was, stored, events).value;
            Batching(w, was, rs, now, AllHeld(was, events)) && LeavesCache(was, stored, now, after)
    decreases |events|
  {
    hide KeyOf, Next, Batching;
    var front := events[..|events| - 1];
    assert events == front + [events[|events| - 1]];
    if |events| == 1 {
      assert front == [] && events == [Prefetch(rs)];
      BatchBegins(w, was, stored, rs);
    } else {
      BatchLeaves(w, was, stored, rs, front);
      var (now, after) := Steps(w, was, stored, front).value;
      BatchStep(w, was, stored, rs, now, after, front, events[|events| - 1]);
    }
  }

  lemma BatchBegins(w: World, was: Reader, stored: set<(string, Rows)>, rs: seq<Relation>)
    requires was.phase.Idle? && Steps(w, was, stored, [Prefetch(rs)]).Some?
    ensures var (now, after) := Steps(w, was, stored, [Prefetch(rs)]).value;
            Batching(w, was, rs, now, AllHeld(was, [Prefetch(rs)])) && LeavesCache(was, stored, now, after)
  {
    hide KeyOf;
    assert [Prefetch(rs)][..0] == [];
    NoSteps(w, was, stored);
    assert was.produced[|was.produced|..] == [];
  }

  /** Whatever is fetched while the cache may be asked is handed to it. */
  lemma FetchedIsHandedOver(w: World, r: Reader, stored: set<(string, Rows)>, e: Event)
    requires Next(w, r, stored, e).Some? && (r.phase.Storing? || (r.phase.Filling? && Usable(r)))
    ensures e.SetEnds?
    ensures var call := if r.phase.Storing? then r.phase.call else ColumnsOf(r.phase.rest[0]);
            var now := Next(w, r, stored, e).value;
            var key := KeyOf(w, r.owner, call);
            key in now.0.memo && now.1 == if e.kept then stored + {(key, now.0.memo[key])} else stored
    ensures Next(w, r, stored, e).value.0.failed == (r.failed || e.fails)
  {
    hide KeyOf;
  }

  /**
   `_Reader`. The catalog is the world's, the cache's behaviour is a parameter of each method, and
   the ghost fields keep the log the state machine keeps.
   */
  class CachingReader {
    const world: World
    const owner: Owner
    const cached: bool
    const bulk: bool
    var memo: map<string, Rows>
    var failed: bool
    ghost var answers: seq<(Call, Rows)>
    ghost var produced: seq<string>
    ghost var failures: nat

    constructor (world: World, owner: Owner, cached: bool, bulk: bool)
      ensures this.world == world
      ensures View() == Reader(owner, cached, bulk, map[], false, Idle, [], [], 0)
      ensures ReaderSound(world, View())
    {
      this.world, this.owner, this.cached, this.bulk := world, owner, cached, bulk;
      memo, failed := map[], false;
      answers, produced, failures := [], [], 0;
      new;
      FreshIsSound(world, owner, cached, bulk);
    }

    ghost function At(phase: Phase): Reader
      reads this
    {
      Reader(owner, cached, bulk, memo, failed, phase, answers, produced, failures)
    }

    ghost function View(): Reader
      reads this
    {
      At(Idle)
    }

    /**
     `_cached`: a read that raises switches the cache off for the rest of the request, a value that
     cannot be decoded does not.
     */
    method Cached(got: Outcome) returns (found: Option<Rows>)
      modifies this`failed, this`failures
      ensures found == if got.Held? then world.decode(got.payload) else None
      ensures failed == (old(failed) || got.Failed?)
      ensures failures == old(failures) + if got.Failed? then 1 else 0
    {
      match got
      case Failed =>
        failed := true;
        failures := failures + 1;
        found := None;
      case Nothing => found := None;
      case Held(payload) => found := world.decode(payload);
    }

    /** `_store`: the write may fail, and may be kept or lost either way. */
    method Store(setFails: bool)
      modifies this`failed, this`failures
      ensures failed == (old(failed) || setFails)
      ensures failures == old(failures) + if setFails then 1 else 0
    {
      if setFails {
        failed := true;
        failures := failures + 1;
      }
    }

    /**
     `_read` with `_read_through`; `got`, `setFails` and `kept` are the cache's doing. The call is
     a run of events of the state machine, and answers with what the role's own catalog says.
     */
    method Read(call: Call, got: Outcome, setFails: bool, kept: bool, ghost stored: set<(string, Rows)>)
      returns (value: Rows, ghost events: seq<Event>, ghost stored': set<(string, Rows)>)
      requires Consistent(world) && ReaderSound(world, View()) && StoreExact(world, stored)
      requires Found(world, got).Some? ==> (KeyOf(world, owner, call), Found(world, got).value) in stored
      modifies this
      ensures Steps(world, old(View()), stored, events) == Some((View(), stored'))
      ensures ReaderSound(world, View()) && StoreExact(world, stored')
      ensures answers == old(answers) + [(call, value)] && value == world.answer(owner, call)
      // The memo answers alone, and remembers whatever else answered.
      ensures var key := KeyOf(world, owner, call);
              && memo == (if key in old(memo) then old(memo) else old(memo)[key := value])
              && (key in old(memo) ==> unchanged(this`failed) && produced == old(produced) && stored' == stored)
      // A cache that is none, or has failed, is left alone; a usable one spares the catalog what it holds.
      ensures KeyOf(world, owner, call) !in old(memo) && (!cached || old(failed)) ==>
                unchanged(this`failed, this`failures) && stored' == stored
                && produced == old(produced) + [KeyOf(world, owner, call)]
      ensures KeyOf(world, owner, call) !in old(memo) && cached && !old(failed)
              && got.Held? && world.decode(got.payload).Some? ==>
                unchanged(this`failed, this`failures) && stored' == stored && produced == old(produced)
      // What it does not hold is fetched and handed to it, even when asking it failed; a failure switches it off.
      ensures KeyOf(world, owner, call) !in old(memo) && cached && !old(failed)
              && (got.Held? ==> world.decode(got.payload).None?) ==>
                && produced == old(produced) + [KeyOf(world, owner, call)]
                && stored' == (if kept then stored + {(KeyOf(world, owner, call), value)} else stored)
                && failed == (got.Failed? || setFails)
    {
      hide KeyOf, ReaderSound, StoreExact, Steps, Next;
      ghost var was := View();
      var key := KeyOf(world, owner, call);
      events, stored' := [Ask(call)], stored;
      if key in memo {
        value := memo[key];
        AskRuns(world, was, stored, call);
      } else {
        if !cached || failed {
          value := world.answer(owner, call);
          produced := produced + [key];
          AskRuns(world, was, stored, call);
        } else {
          var found := Cached(got);
          if found.Some? {
            value := found.value;
            events := [Ask(call), Hit(value)];
            HitRuns(world, was, stored, call, value);
          } else {
            value := world.answer(owner, call);
            produced := produced + [key];
            Store(setFails);
            events := [Ask(call), if got.Failed? then GetFails else Miss, Produce, SetEnds(setFails, kept)];
            stored' := if kept then stored + {(key, value)} else stored;
            MissRuns(world, was, stored, call, got.Failed?, setFails, kept);
          }
        }
        memo := memo[key := value];
      }
      answers := answers + [(call, value)];
      StepsAreSound(world, was, stored, events);
      LastAnswerIsTrue(world, View());
    }

    /** The first loop of `prefetch_columns`: what is neither remembered nor held. */
    method ScanRelations(relations: seq<Relation>, got: nat -> Outcome, ghost was: Reader,
                         ghost stored: set<(string, Rows)>, ghost before: seq<Event>)
      returns (missing: seq<Relation>, ghost events: seq<Event>)
      requires Steps(world, was, stored, before) == Some((At(Scanning(relations, [])), stored))
      requires before != [] && OneBatch(before)
      requires forall i | 0 <= i < |relations| && Found(world, got(i)).Some? ::
                 (KeyOf(world, owner, ColumnsOf(relations[i])), Found(world, got(i)).value) in stored
      modifies this`memo, this`failed, this`failures
      ensures Steps(world, was, stored, events) == Some((At(Scanning([], missing)), stored))
      ensures before <= events && OneBatch(events)
      ensures cached && !old(failed)
              && (forall i | 0 <= i < |relations| ::
                    KeyOf(world, owner, ColumnsOf(relations[i])) in old(memo)
                    || (got(i).Held? && world.decode(got(i).payload).Some?)) ==>
                missing == [] && unchanged(this`failed)
    {
      hide KeyOf, Steps, Next, Settles, ScanEvent, OneBatch;
      missing, events := [], before;
      for i := 0 to |relations|
        invariant before <= events && OneBatch(events)
        invariant Steps(world, was, stored, events) == Some((At(Scanning(relations[i..], missing)), stored))
        invariant forall key | key in old(memo) :: key in memo
        invariant cached && !old(failed)
                  && (forall j | 0 <= j < |relations| ::
                        KeyOf(world, owner, ColumnsOf(relations[j])) in old(memo)
                        || (got(j).Held? && world.decode(got(j).payload).Some?)) ==>
                    missing == [] && unchanged(this`failed)
      {
        ghost var now := At(Scanning(relations[i..], missing));
        Then(world, was, stored, events, now, stored, ScanEvent(world, now, got(i)));
        ScanRuns(world, now, stored, got(i));
        AllSettle(world, now, got(i), false, false);
        OneBatchGrows(events, ScanEvent(world, now, got(i)));
        events := events + [ScanEvent(world, now, got(i))];
        var key := KeyOf(world, owner, ColumnsOf(relations[i]));
        if key !in memo {
          var found: Option<Rows> := None;
          if cached && !failed {
            found := Cached(got(i));
          }
          if found.Some? {
            memo := memo[key := found.value];
          } else {
            missing := missing + [relations[i]];
          }
        }
      }
      assert relations[|relations|..] == [];
    }

    /** Its second loop: each relation of the batch remembered, and handed to the cache while that may be asked. */
    method FillMissing(missing: seq<Relation>, found: map<Relation, Rows>, setFails: nat -> bool, kept: nat -> bool,
                       ghost was: Reader, ghost stored: set<(string, Rows)>, ghost before: seq<Event>)
      returns (ghost events: seq<Event>, ghost stored': set<(string, Rows)>)
      requires missing != [] && Steps(world, was, stored, before) == Some((At(Filling(missing, found)), stored))
      requires before != [] && OneBatch(before)
      modifies this`memo, this`failed, this`failures
      ensures Steps(world, was, stored, events) == Some((View(), stored'))
      ensures before <= events && OneBatch(events)
    {
      hide KeyOf, Steps, Next, Settles, FillEvent, OneBatch;
      events, stored' := before, stored;
      for i := 0 to |missing|
        invariant before <= events && OneBatch(events)
        invariant Steps(world, was, stored, events)
          == Some((At(if i == |missing| then Idle else Filling(missing[i..], found)), stored'))
      {
        ghost var now := At(Filling(missing[i..], found));
        Then(world, was, stored, events, now, stored', FillEvent(now, setFails(i), kept(i)));
        FillRuns(world, now, stored', setFails(i), kept(i));
        AllSettle(world, now, Nothing, setFails(i), kept(i));
        OneBatchGrows(events, FillEvent(now, setFails(i), kept(i)));
        events := events + [FillEvent(now, setFails(i), kept(i))];
        var key := KeyOf(world, owner, ColumnsOf(missing[i]));
        var value := Given(found, missing[i], world.nothing);
        memo := memo[key := value];
        if cached && !failed {
          stored' := if kept(i) then stored' + {(key, value)} else stored';
          Store(setFails(i));
        }
      }
    }

    /**
     `prefetch_columns`. The cache's doing is given relation by relation: `got` when it is asked,
     `setFails` and `kept` when it is written.
     */
    method PrefetchColumns(relations: seq<Relation>, got: nat -> Outcome, setFails: nat -> bool, kept: nat -> bool,
                           ghost stored: set<(string, Rows)>)
      returns (ghost events: seq<Event>, ghost stored': set<(string, Rows)>)
      requires Consistent(world) && ReaderSound(world, View()) && StoreExact(world, stored)
      requires forall i | 0 <= i < |relations| && Found(world, got(i)).Some? ::
                 (KeyOf(world, owner, ColumnsOf(relations[i])), Found(world, got(i)).value) in stored
      modifies this
      ensures if bulk && |relations| >= 2 then events != [] && events[0] == Prefetch(relations) else events == []
      ensures Steps(world, old(View()), stored, events) == Some((View(), stored'))
      ensures ReaderSound(world, View()) && StoreExact(world, stored')
      ensures answers == old(answers)
      ensures OneBatch(events)
      ensures events != [] ==> Batching(world, old(View()), relations, View(), AllHeld(old(View()), events))
      ensures events != [] ==> LeavesCache(old(View()), stored, View(), stored')
      // Nothing is fetched when a usable cache holds all that is not remembered.
      ensures cached && !old(failed)
              && (forall i | 0 <= i < |relations| ::
                    KeyOf(world, owner, ColumnsOf(relations[i])) in old(memo)
                    || (got(i).Held? && world.decode(got(i).payload).Some?)) ==>
                produced == old(produced) && unchanged(this`failed) && stored' == stored
    {
      hide KeyOf, ReaderSound, StoreExact, Steps, Next, Once, Consistent, Batching, LeavesCache, AllHeld, Settles;
      hide ScanEvent, FillEvent, OneBatch;
      ghost var was := View();
      OneBatchBegins(Prefetch(relations));
      events, stored' := [], stored;
      if |relations| < 2 || !bulk {
        NoSteps(world, was, stored);
        return;
      }
      PrefetchRuns(world, was, stored, relations);
      var missing;
      missing, events := ScanRelations(relations, got, was, stored, [Prefetch(relations)]);
      ghost var now := At(Scanning([], missing));
      Then(world, was, stored, events, now, stored, Bulk);
      BulkRuns(world, now, stored);
      AllSettle(world, now, Nothing, false, false);
      OneBatchGrows(events, Bulk);
      events := events + [Bulk];
      if |missing| >= 2 {
        var found := world.bulk(owner, missing);
        produced := produced + Once(ColumnKeys(world, owner, missing));
        events, stored' := FillMissing(missing, found, setFails, kept, was, stored, events);
      }
      StepsAreSound(world, was, stored, events);
      BatchLeaves(world, was, stored, relations, events);
    }
  }
}
