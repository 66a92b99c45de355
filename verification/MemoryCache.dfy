/**
 The in-process cache (caches/memory.py): a bounded LRU with expiry and counters, and
 what it promises over every run of its operations. Each method is one atomic step at
 the time it is given.
 */
module MemoryCache {
  import opened Wrappers

  datatype Item<+V> = Item(key: string, expires: Option<real>, value: V)

  /** Everything a cache holds, least recently used first, and everything it has counted. */
  datatype State<+V> = State(items: seq<Item<V>>, hits: nat, misses: nat, expiries: nat, evictions: nat)

  datatype Config = Config(defaultTtl: Option<int>, maxsize: Option<nat>)

  predicate Bounded(config: Config) {
    config.maxsize.Some? ==> config.maxsize.value >= 1
  }

  function Empty<V>(): State<V> {
    State([], 0, 0, 0, 0)
  }

  function IndexOf<V>(items: seq<Item<V>>, key: string): (r: Option<nat>)
    ensures r.Some? ==> r.value < |items| && items[r.value].key == key
    ensures r.None? ==> forall i | 0 <= i < |items| :: items[i].key != key
  {
    if items == [] then None
    else if items[0].key == key then Some(0)
    else
      var rest := IndexOf(items[1..], key);
      assert forall i | 1 <= i < |items| :: items[i] == items[1..][i - 1];
      if rest.None? then None else Some(rest.value + 1)
  }

  /** The items but for the one at `i`. */
  function Dropped<V>(items: seq<Item<V>>, i: nat): seq<Item<V>>
    requires i < |items|
  {
    items[..i] + items[i + 1..]
  }

  predicate Expired<V>(item: Item<V>, now: real) {
    item.expires.Some? && now >= item.expires.value
  }

  function Deadline(config: Config, ttl: Option<int>, now: real): Option<real> {
    var seconds := if ttl.Some? then ttl else config.defaultTtl;
    if seconds.None? then None else Some(now + seconds.value as real)
  }

  // -------------------------------------------------------- one step of each kind

  function GetStep<V>(s: State<V>, key: string, now: real): (State<V>, Option<V>) {
    var found := IndexOf(s.items, key);
    if found.None? then
      (s.(misses := s.misses + 1), None)
    else
      var item, others := s.items[found.value], Dropped(s.items, found.value);
      if Expired(item, now) then
        (s.(items := others, expiries := s.expiries + 1, misses := s.misses + 1), None)
      else
        (s.(items := others + [item], hits := s.hits + 1), Some(item.value))
  }

  /** The items with `item` stored, before the bound is looked at. */
  function Stored<V>(items: seq<Item<V>>, item: Item<V>): seq<Item<V>> {
    var found := IndexOf(items, item.key);
    (if found.None? then items else Dropped(items, found.value)) + [item]
  }

  predicate Overfull(config: Config, size: nat) {
    config.maxsize.Some? && size > config.maxsize.value
  }

  function SetStep<V>(config: Config, s: State<V>, key: string, value: V, ttl: Option<int>, now: real): State<V> {
    var items := Stored(s.items, Item(key, Deadline(config, ttl, now), value));
    if Overfull(config, |items|) then s.(items := items[1..], evictions := s.evictions + 1)
    else s.(items := items)
  }

  function DeleteStep<V>(s: State<V>, key: string): State<V> {
    var found := IndexOf(s.items, key);
    if found.None? then s else s.(items := Dropped(s.items, found.value))
  }

  function ClearStep<V>(s: State<V>): State<V> {
    s.(items := [])
  }

  /** The cache itself; the ordered dictionary is its items in order. */
  class Cache<V> {
    const config: Config
    var entries: seq<Item<V>>
    var hits: nat
    var misses: nat
    var expiries: nat
    var evictions: nat

    function Snapshot(): State<V>
      reads this
    {
      State(entries, hits, misses, expiries, evictions)
    }

    constructor (defaultTtl: Option<int>, maxsize: Option<nat>)
      requires maxsize.Some? ==> maxsize.value >= 1
      ensures config == Config(defaultTtl, maxsize) && Bounded(config)
      ensures Snapshot() == Empty()
    {
      config := Config(defaultTtl, maxsize);
      entries := [];
      hits, misses, expiries, evictions := 0, 0, 0, 0;
    }

    method Get(key: string, now: real) returns (result: Option<V>)
      modifies this
      ensures (Snapshot(), result) == GetStep(old(Snapshot()), key, now)
    {
      var found := IndexOf(entries, key);
      if found.None? {
        misses := misses + 1;
        return None;
      }
      var item := entries[found.value];
      entries := Dropped(entries, found.value);
      if Expired(item, now) {
        expiries := expiries + 1;
        misses := misses + 1;
        return None;
      }
      entries := entries + [item];
      hits := hits + 1;
      return Some(item.value);
    }

    method Set(key: string, value: V, ttl: Option<int>, now: real)
      modifies this
      ensures Snapshot() == SetStep(config, old(Snapshot()), key, value, ttl, now)
    {
      var item := Item(key, Deadline(config, ttl, now), value);
      var found := IndexOf(entries, key);
      if found.Some? {
        entries := Dropped(entries, found.value);
      }
      entries := entries + [item];
      if config.maxsize.Some? && |entries| > config.maxsize.value {
        entries := entries[1..];
        evictions := evictions + 1;
      }
    }

    method Delete(key: string)
      modifies this
      ensures Snapshot() == DeleteStep(old(Snapshot()), key)
    {
      var found := IndexOf(entries, key);
      if found.Some? {
        entries := Dropped(entries, found.value);
      }
    }

    method Clear()
      modifies this
      ensures Snapshot() == ClearStep(old(Snapshot()))
    {
      entries := [];
    }
  }

  // --------------------------------------------------------------------- runs

  datatype Op<+V> =
    | Get(key: string, now: real)
    | Set(key: string, value: V, ttl: Option<int>, now: real)
    | Delete(key: string)
    | Clear

  function Apply<V>(config: Config, s: State<V>, op: Op<V>): State<V> {
    match op
    case Get(key, now) => GetStep(s, key, now).0
    case Set(key, value, ttl, now) => SetStep(config, s, key, value, ttl, now)
    case Delete(key) => DeleteStep(s, key)
    case Clear => ClearStep(s)
  }

  function Run<V>(config: Config, ops: seq<Op<V>>): State<V> {
    if ops == [] then Empty() else Apply(config, Run(config, ops[..|ops| - 1]), ops[|ops| - 1])
  }

  function Before<V>(ops: seq<Op<V>>): seq<Op<V>>
    requires ops != []
  {
    ops[..|ops| - 1]
  }

  function Last<V>(ops: seq<Op<V>>): Op<V>
    requires ops != []
  {
    ops[|ops| - 1]
  }

  /** What a plain map would hold for `key`: the value last set and not since removed, with its deadline. */
  function LastSet<V>(config: Config, ops: seq<Op<V>>, key: string): Option<(V, Option<real>)> {
    if ops == [] then None
    else
      match Last(ops)
      case Set(k, value, ttl, now) =>
        if k == key then Some((value, Deadline(config, ttl, now))) else LastSet(config, Before(ops), key)
      case Delete(k) => if k == key then None else LastSet(config, Before(ops), key)
      case Clear => None
      case Get(_, _) => LastSet(config, Before(ops), key)
  }

  /** Whether `op` uses `key` in state `s`: sets it, or reads it and finds it. */
  predicate Uses<V>(s: State<V>, op: Op<V>, key: string) {
    match op
    case Set(k, _, _, _) => k == key
    case Get(k, now) => k == key && GetStep(s, k, now).1.Some?
    case _ => false
  }

  /** When `key` was last used, counting operations from one; zero for never. */
  function LastUse<V>(config: Config, ops: seq<Op<V>>, key: string): (n: nat)
    ensures n <= |ops|
  {
    if ops == [] then 0
    else if Uses(Run(config, Before(ops)), Last(ops), key) then |ops|
    else LastUse(config, Before(ops), key)
  }

  predicate OneItemEach<V>(items: seq<Item<V>>) {
    forall i, j | 0 <= i < j < |items| :: items[i].key != items[j].key
  }

  /** Every item is what a plain map would hold. */
  ghost predicate Current<V>(config: Config, ops: seq<Op<V>>, items: seq<Item<V>>) {
    forall i | 0 <= i < |items| :: LastSet(config, ops, items[i].key) == Some((items[i].value, items[i].expires))
  }

  /** The items stand in the order they were last used. */
  ghost predicate ByUse<V>(config: Config, ops: seq<Op<V>>, items: seq<Item<V>>) {
    && (forall i | 0 <= i < |items| :: 0 < LastUse(config, ops, items[i].key))
    && forall i, j | 0 <= i < j < |items| :: LastUse(config, ops, items[i].key) < LastUse(config, ops, items[j].key)
  }

  ghost predicate Holds<V>(config: Config, ops: seq<Op<V>>) {
    var items := Run(config, ops).items;
    && OneItemEach(items)
    && !Overfull(config, |items|)
    && Current(config, ops, items)
    && ByUse(config, ops, items)
  }

  /** Taking an item out leaves the others in their order. */
  lemma DropKeepsOrder<V>(config: Config, ops: seq<Op<V>>, all: seq<Item<V>>, d: nat)
    requires d < |all| && OneItemEach(all) && Current(config, ops, all) && ByUse(config, ops, all)
    ensures var items := Dropped(all, d);
            OneItemEach(items) && Current(config, ops, items) && ByUse(config, ops, items)
  {
    hide LastUse, LastSet;
    var items := Dropped(all, d);
    forall i | 0 <= i < |items| ensures items[i] == all[if i < d then i else i + 1] {
    }
  }

  /** An item that stays keeps its place among the others, its value and its last use. */
  lemma ItemsStay<V>(config: Config, ops: seq<Op<V>>, items: seq<Item<V>>)
    requires ops != [] && Holds(config, Before(ops))
    requires var all := Run(config, Before(ops)).items;
             || (exists i :: 0 <= i < |all| && items == Dropped(all, i))
             || items == all
    requires forall i | 0 <= i < |items| ::
               !Uses(Run(config, Before(ops)), Last(ops), items[i].key)
               && LastSet(config, ops, items[i].key) == LastSet(config, Before(ops), items[i].key)
    ensures OneItemEach(items) && Current(config, ops, items) && ByUse(config, ops, items)
  {
    hide LastUse, LastSet, Uses, Run, OneItemEach, Dropped;
    var all := Run(config, Before(ops)).items;
    if items != all {
      var d :| 0 <= d < |all| && items == Dropped(all, d);
      DropKeepsOrder(config, Before(ops), all, d);
    }
    forall i | 0 <= i < |items|
      ensures LastUse(config, ops, items[i].key) == LastUse(config, Before(ops), items[i].key)
    {
      UnusedKeepsUse(config, ops, items[i].key);
    }
  }

  lemma UnusedKeepsUse<V>(config: Config, ops: seq<Op<V>>, key: string)
    requires ops != [] && !Uses(Run(config, Before(ops)), Last(ops), key)
    ensures LastUse(config, ops, key) == LastUse(config, Before(ops), key)
  {
  }

  /** Moving an item to the end, used last of all, keeps the order. */
  lemma AppendUsed<V>(config: Config, ops: seq<Op<V>>, others: seq<Item<V>>, item: Item<V>)
    requires OneItemEach(others) && Current(config, ops, others) && ByUse(config, ops, others)
    requires forall i | 0 <= i < |others| :: others[i].key != item.key && LastUse(config, ops, others[i].key) < |ops|
    requires LastUse(config, ops, item.key) == |ops| > 0
    requires LastSet(config, ops, item.key) == Some((item.value, item.expires))
    ensures OneItemEach(others + [item]) && Current(config, ops, others + [item]) && ByUse(config, ops, others + [item])
  {
    hide LastUse, LastSet;
  }

  lemma DropKeepsRest<V>(items: seq<Item<V>>, d: nat, i: nat)
    requires OneItemEach(items) && d < |items| && i < |Dropped(items, d)|
    ensures Dropped(items, d)[i] in items && Dropped(items, d)[i].key != items[d].key
  {
    var j := if i < d then i else i + 1;
    assert Dropped(items, d)[i] == items[j];
  }

  lemma GetHolds<V>(config: Config, ops: seq<Op<V>>)
    requires ops != [] && Last(ops).Get? && Holds(config, Before(ops))
    ensures Holds(config, ops)
  {
    hide LastUse, LastSet;
    var s, op := Run(config, Before(ops)), Last(ops);
    var found := IndexOf(s.items, op.key);
    if found.None? {
      OthersUnused(config, ops, s.items);
      ItemsStay(config, ops, s.items);
    } else {
      var others := Dropped(s.items, found.value);
      forall i | 0 <= i < |others|
        ensures others[i].key != op.key
      {
        DropKeepsRest(s.items, found.value, i);
      }
      OthersUnused(config, ops, others);
      ItemsStay(config, ops, others);
      if !Expired(s.items[found.value], op.now) {
        UsedNow(config, ops, op.key);
        GetKeepsSet(config, ops, op.key);
        AppendUsed(config, ops, others, s.items[found.value]);
      }
    }
  }

  lemma GetKeepsSet<V>(config: Config, ops: seq<Op<V>>, key: string)
    requires ops != [] && Last(ops).Get?
    ensures LastSet(config, ops, key) == LastSet(config, Before(ops), key)
  {
  }

  lemma UsedNow<V>(config: Config, ops: seq<Op<V>>, key: string)
    requires ops != [] && Uses(Run(config, Before(ops)), Last(ops), key)
    ensures LastUse(config, ops, key) == |ops|
  {
  }

  /** An operation on one key leaves every other key's last value and last use alone. */
  lemma OthersUnused<V>(config: Config, ops: seq<Op<V>>, items: seq<Item<V>>)
    requires ops != [] && !Last(ops).Clear?
    requires forall i | 0 <= i < |items| :: items[i].key != Last(ops).key
    ensures forall i | 0 <= i < |items| ::
              && !Uses(Run(config, Before(ops)), Last(ops), items[i].key)
              && LastSet(config, ops, items[i].key) == LastSet(config, Before(ops), items[i].key)
              && LastUse(config, ops, items[i].key) < |ops|
  {
  }

  /** What a set leaves before the bound is looked at. */
  lemma StoredHolds<V>(config: Config, ops: seq<Op<V>>)
    requires ops != [] && Last(ops).Set? && Holds(config, Before(ops))
    ensures var op := Last(ops);
            var item := Item(op.key, Deadline(config, op.ttl, op.now), op.value);
            var items := Stored(Run(config, Before(ops)).items, item);
            && OneItemEach(items) && Current(config, ops, items) && ByUse(config, ops, items)
            && items[|items| - 1].key == op.key
            && |items| <= |Run(config, Before(ops)).items| + 1
  {
    hide LastUse, Deadline;
    var s, op := Run(config, Before(ops)), Last(ops);
    var item := Item(op.key, Deadline(config, op.ttl, op.now), op.value);
    var found := IndexOf(s.items, op.key);
    var others := if found.None? then s.items else Dropped(s.items, found.value);
    forall i | 0 <= i < |others|
      ensures others[i].key != op.key
    {
      if found.Some? {
        DropKeepsRest(s.items, found.value, i);
      }
    }
    OthersUnused(config, ops, others);
    ItemsStay(config, ops, others);
    UsedNow(config, ops, op.key);
    AppendUsed(config, ops, others, item);
  }

  lemma RestHolds<V>(config: Config, ops: seq<Op<V>>, items: seq<Item<V>>)
    requires items != [] && OneItemEach(items) && Current(config, ops, items) && ByUse(config, ops, items)
    ensures OneItemEach(items[1..]) && Current(config, ops, items[1..]) && ByUse(config, ops, items[1..])
  {
    hide LastUse, LastSet;
    assert forall i | 0 <= i < |items| - 1 :: items[1..][i] == items[i + 1];
  }

  lemma SetHolds<V>(config: Config, ops: seq<Op<V>>)
    requires ops != [] && Last(ops).Set? && Holds(config, Before(ops)) && Bounded(config)
    ensures Holds(config, ops)
  {
    hide LastUse, LastSet;
    var op := Last(ops);
    var items := Stored(Run(config, Before(ops)).items, Item(op.key, Deadline(config, op.ttl, op.now), op.value));
    StoredHolds(config, ops);
    RestHolds(config, ops, items);
  }

  lemma DeleteHolds<V>(config: Config, ops: seq<Op<V>>)
    requires ops != [] && Last(ops).Delete? && Holds(config, Before(ops))
    ensures Holds(config, ops)
  {
    hide LastUse, LastSet;
    var s, op := Run(config, Before(ops)), Last(ops);
    var found := IndexOf(s.items, op.key);
    var others := if found.None? then s.items else Dropped(s.items, found.value);
    forall i | 0 <= i < |others|
      ensures others[i].key != op.key
    {
      if found.Some? {
        DropKeepsRest(s.items, found.value, i);
      }
    }
    OthersUnused(config, ops, others);
    ItemsStay(config, ops, others);
  }

  /**
   Over every run: one item a key and no more than the bound, each holding what a plain map
   would, and all standing in the order they were last used.
   */
  lemma {:induction false} EveryRunHolds<V>(config: Config, ops: seq<Op<V>>)
    requires Bounded(config)
    ensures Holds(config, ops)
    decreases |ops|
  {
    if ops != [] {
      EveryRunHolds(config, Before(ops));
      match Last(ops)
      case Get(_, _) => GetHolds(config, ops);
      case Set(_, _, _, _) => SetHolds(config, ops);
      case Delete(_) => DeleteHolds(config, ops);
      case Clear =>
    }
  }

  /** A read answers nothing, or the value last set for its key, unremoved and unexpired. */
  lemma GetIsSound<V>(config: Config, ops: seq<Op<V>>, key: string, now: real)
    requires Bounded(config)
    ensures var answer := GetStep(Run(config, ops), key, now).1;
            answer.Some? ==>
              var held := LastSet(config, ops, key);
              held.Some? && held.value.0 == answer.value && (held.value.1.Some? ==> now < held.value.1.value)
  {
    EveryRunHolds(config, ops);
  }

  lemma {:induction false} LastSetWasSet<V>(config: Config, ops: seq<Op<V>>, key: string)
    requires LastSet(config, ops, key).Some?
    ensures exists i | 0 <= i < |ops| ::
              ops[i].Set? && ops[i].key == key && ops[i].value == LastSet(config, ops, key).value.0
    decreases |ops|
  {
    var n := |ops| - 1;
    if !(ops[n].Set? && ops[n].key == key) {
      LastSetWasSet(config, ops[..n], key);
      var i :| 0 <= i < n && ops[..n][i].Set? && ops[..n][i].key == key
        && ops[..n][i].value == LastSet(config, ops[..n], key).value.0;
      assert ops[i] == ops[..n][i];
    }
  }

  /** Whatever a read answers with was once handed to the cache under that key: what a reading request counts on. */
  lemma AnswersWereSet<V>(config: Config, ops: seq<Op<V>>, key: string, now: real)
    requires Bounded(config) && GetStep(Run(config, ops), key, now).1.Some?
    ensures exists i | 0 <= i < |ops| ::
              ops[i].Set? && ops[i].key == key && ops[i].value == GetStep(Run(config, ops), key, now).1.value
  {
    GetIsSound(config, ops, key, now);
    LastSetWasSet(config, ops, key);
  }

  predicate NotAfter<V>(op: Op<V>, now: real) {
    match op
    case Get(_, t) => t <= now
    case Set(_, _, _, t) => t <= now
    case _ => true
  }

  predicate IsLive(held: Option<real>, now: real) {
    held.Some? ==> now < held.value
  }

  predicate InItems<V>(items: seq<Item<V>>, key: string) {
    exists i | 0 <= i < |items| :: items[i].key == key
  }

  lemma DropKeepsKey<V>(items: seq<Item<V>>, d: nat, key: string)
    requires d < |items| && InItems(items, key) && items[d].key != key
    ensures InItems(Dropped(items, d), key)
  {
    var i :| 0 <= i < |items| && items[i].key == key;
    assert Dropped(items, d)[if i < d then i else i - 1] == items[i];
  }

  lemma AppendKeepsKey<V>(items: seq<Item<V>>, item: Item<V>, key: string)
    requires InItems(items, key) || item.key == key
    ensures InItems(items + [item], key)
  {
    if item.key == key {
      assert (items + [item])[|items|].key == key;
    } else {
      var i :| 0 <= i < |items| && items[i].key == key;
      assert (items + [item])[i].key == key;
    }
  }

  /** A set over the bound drops the least recently used item, never the one just set. */
  lemma EvictsLeastRecentlyUsed<V>(config: Config, ops: seq<Op<V>>)
    requires Bounded(config) && ops != [] && Last(ops).Set?
    requires Run(config, ops).evictions > Run(config, Before(ops)).evictions
    ensures var op := Last(ops);
            var item := Item(op.key, Deadline(config, op.ttl, op.now), op.value);
            var stored := Stored(Run(config, Before(ops)).items, item);
            && Run(config, ops).items == stored[1..]
            && stored[0].key != op.key
            && forall i | 1 <= i < |stored| ::
                 LastUse(config, ops, stored[0].key) < LastUse(config, ops, stored[i].key)
  {
    hide LastUse, LastSet;
    EveryRunHolds(config, Before(ops));
    StoredHolds(config, ops);
  }

  // --------------------------------------------------------------- retention

  /** The keys other than `key` used since it last was. */
  function UsedSince<V>(config: Config, ops: seq<Op<V>>, key: string): set<string> {
    if ops == [] then {}
    else
      var s, op := Run(config, Before(ops)), Last(ops);
      if Uses(s, op, key) then {}
      else UsedSince(config, Before(ops), key) + if !op.Clear? && Uses(s, op, op.key) then {op.key} else {}
  }

  lemma {:induction false} UsedLater<V>(config: Config, ops: seq<Op<V>>, key: string, other: string)
    requires other != key && LastUse(config, ops, other) > LastUse(config, ops, key)
    ensures other in UsedSince(config, ops, key)
    decreases |ops|
  {
    hide Run;
    var s, op := Run(config, Before(ops)), Last(ops);
    if !Uses(s, op, other) {
      UsedLater(config, Before(ops), key, other);
    }
  }

  function KeysOf<V>(items: seq<Item<V>>): set<string> {
    set i | 0 <= i < |items| :: items[i].key
  }

  lemma {:induction false} AsManyKeys<V>(items: seq<Item<V>>)
    requires OneItemEach(items)
    ensures |KeysOf(items)| == |items|
  {
    if items != [] {
      var n := |items| - 1;
      AsManyKeys(items[..n]);
      assert KeysOf(items) == KeysOf(items[..n]) + {items[n].key};
    }
  }

  lemma Fewer<T>(a: set<T>, b: set<T>)
    requires a <= b
    ensures |a| <= |b|
  {
    assert b == a + (b - a);
  }

  /** The item dropped over the bound has as many keys used since as the bound allows. */
  lemma DroppedForOthers<V>(config: Config, ops: seq<Op<V>>, stored: seq<Item<V>>)
    requires stored != [] && OneItemEach(stored) && ByUse(config, ops, stored)
    ensures |UsedSince(config, ops, stored[0].key)| >= |stored| - 1
  {
    hide LastUse, UsedSince;
    var rest := stored[1..];
    AsManyKeys(rest);
    forall k | k in KeysOf(rest) ensures k in UsedSince(config, ops, stored[0].key) {
      var i :| 0 <= i < |rest| && rest[i].key == k;
      assert rest[i] == stored[i + 1];
      UsedLater(config, ops, stored[0].key, k);
    }
    Fewer(KeysOf(rest), UsedSince(config, ops, stored[0].key));
  }

  /** What `key` stands for and who was used since, across an operation that does not use it. */
  lemma SinceBefore<V>(config: Config, ops: seq<Op<V>>, key: string)
    requires ops != [] && !Uses(Run(config, Before(ops)), Last(ops), key) && LastSet(config, ops, key).Some?
    ensures LastSet(config, Before(ops), key) == LastSet(config, ops, key)
    ensures |UsedSince(config, Before(ops), key)| <= |UsedSince(config, ops, key)|
  {
    Fewer(UsedSince(config, Before(ops), key), UsedSince(config, ops, key));
  }

  lemma SetRetains<V>(config: Config, ops: seq<Op<V>>, key: string)
    requires Bounded(config) && ops != [] && Last(ops).Set?
    requires Last(ops).key == key || InItems(Run(config, Before(ops)).items, key)
    requires config.maxsize.Some? ==> |UsedSince(config, ops, key)| < config.maxsize.value
    ensures InItems(Run(config, ops).items, key)
  {
    hide LastUse, LastSet, UsedSince;
    var s, op := Run(config, Before(ops)), Last(ops);
    var item := Item(op.key, Deadline(config, op.ttl, op.now), op.value);
    var found := IndexOf(s.items, op.key);
    var others := if found.Some? then Dropped(s.items, found.value) else s.items;
    if op.key != key && found.Some? {
      DropKeepsKey(s.items, found.value, key);
    }
    AppendKeepsKey(others, item, key);
    EveryRunHolds(config, Before(ops));
    StoredHolds(config, ops);
    var stored := Stored(s.items, item);
    if Overfull(config, |stored|) {
      DroppedForOthers(config, ops, stored);
      DropKeepsKey(stored, 0, key);
      assert Dropped(stored, 0) == stored[1..];
    }
  }

  lemma OtherOpRetains<V>(config: Config, ops: seq<Op<V>>, key: string)
    requires ops != [] && InItems(Run(config, Before(ops)).items, key)
    requires (Last(ops).Get? || Last(ops).Delete?) && Last(ops).key != key
    ensures InItems(Run(config, ops).items, key)
  {
    var s, op := Run(config, Before(ops)), Last(ops);
    var found := IndexOf(s.items, op.key);
    if found.Some? {
      DropKeepsKey(s.items, found.value, key);
      AppendKeepsKey(Dropped(s.items, found.value), s.items[found.value], key);
    }
  }

  /** A read of a key that is there, at a time its value is live, keeps it and uses it. */
  lemma GetRetains<V>(config: Config, ops: seq<Op<V>>, key: string, now: real)
    requires Bounded(config) && ops != [] && Last(ops).Get? && Last(ops).key == key && Last(ops).now <= now
    requires InItems(Run(config, Before(ops)).items, key)
    requires var held := LastSet(config, Before(ops), key); held.Some? && IsLive(held.value.1, now)
    ensures InItems(Run(config, ops).items, key) && Uses(Run(config, Before(ops)), Last(ops), key)
  {
    hide LastUse, LastSet;
    EveryRunHolds(config, Before(ops));
    var items := Run(config, Before(ops)).items;
    var found := IndexOf(items, key);
    AppendKeepsKey(Dropped(items, found.value), items[found.value], key);
  }

  lemma {:induction false} KeyIsRetained<V>(config: Config, ops: seq<Op<V>>, key: string, now: real)
    requires Bounded(config) && forall i | 0 <= i < |ops| :: NotAfter(ops[i], now)
    requires LastSet(config, ops, key).Some? && IsLive(LastSet(config, ops, key).value.1, now)
    requires config.maxsize.Some? ==> |UsedSince(config, ops, key)| < config.maxsize.value
    ensures InItems(Run(config, ops).items, key)
    decreases |ops|
  {
    hide Run, UsedSince, InItems, LastUse, IsLive;
    var op := Last(ops);
    assert NotAfter(ops[|ops| - 1], now);
    if op.Set? && op.key == key {
      SetRetains(config, ops, key);
    } else if op.Get? && op.key == key && Uses(Run(config, Before(ops)), op, key) {
      UsedIsKept(config, ops, key);
    } else {
      SinceBefore(config, ops, key);
      KeyIsRetained(config, Before(ops), key, now);
      match op
      case Set(_, _, _, _) => SetRetains(config, ops, key);
      case Delete(_) => OtherOpRetains(config, ops, key);
      case Get(_, _) =>
        if op.key == key { GetRetains(config, ops, key, now); } else { OtherOpRetains(config, ops, key); }
    }
  }

  lemma UsedIsKept<V>(config: Config, ops: seq<Op<V>>, key: string)
    requires ops != [] && Last(ops).Get? && Uses(Run(config, Before(ops)), Last(ops), key)
    ensures InItems(Run(config, ops).items, key)
  {
    var items := Run(config, Before(ops)).items;
    var found := IndexOf(items, key);
    AppendKeepsKey(Dropped(items, found.value), items[found.value], key);
  }

  /**
   A bounded cache keeps what is in use: a value not since removed and still live is answered as long as
   fewer other keys than the bound have been used since its own was.
   */
  lemma KeepsWhatIsInUse<V>(config: Config, ops: seq<Op<V>>, key: string, now: real)
    requires Bounded(config) && forall i | 0 <= i < |ops| :: NotAfter(ops[i], now)
    requires config.maxsize.Some? ==> |UsedSince(config, ops, key)| < config.maxsize.value
    ensures var held := LastSet(config, ops, key);
            GetStep(Run(config, ops), key, now).1
            == if held.Some? && IsLive(held.value.1, now) then Some(held.value.0) else None
  {
    hide UsedSince;
    GetIsSound(config, ops, key, now);
    EveryRunHolds(config, ops);
    var held := LastSet(config, ops, key);
    if held.Some? && IsLive(held.value.1, now) {
      KeyIsRetained(config, ops, key, now);
    }
  }

  /**
   Without a bound, and read no earlier than anything before it, the cache answers exactly as
   a plain map with deadlines does.
   */
  lemma UnboundedIsAMap<V>(config: Config, ops: seq<Op<V>>, key: string, now: real)
    requires config.maxsize.None? && forall i | 0 <= i < |ops| :: NotAfter(ops[i], now)
    ensures var held := LastSet(config, ops, key);
            GetStep(Run(config, ops), key, now).1
            == if held.Some? && IsLive(held.value.1, now) then Some(held.value.0) else None
  {
    KeepsWhatIsInUse(config, ops, key, now);
  }

  // --------------------------------------------------------------- accounting

  function Gets<V>(ops: seq<Op<V>>): nat {
    if ops == [] then 0 else Gets(Before(ops)) + if Last(ops).Get? then 1 else 0
  }

  /** How many sets stored a key that was not there. */
  function Inserts<V>(config: Config, ops: seq<Op<V>>): nat {
    if ops == [] then 0
    else
      Inserts(config, Before(ops))
      + if Last(ops).Set? && IndexOf(Run(config, Before(ops)).items, Last(ops).key).None? then 1 else 0
  }

  /** How many items deletes and clears took away. */
  function Removals<V>(config: Config, ops: seq<Op<V>>): nat {
    if ops == [] then 0
    else
      var items := Run(config, Before(ops)).items;
      Removals(config, Before(ops))
      + match Last(ops)
        case Delete(key) => if IndexOf(items, key).Some? then 1 else 0
        case Clear => |items|
        case _ => 0
  }

  /** The counters add up over every run. */
  lemma {:induction false} CountersAddUp<V>(config: Config, ops: seq<Op<V>>)
    ensures var s := Run(config, ops);
            && s.hits + s.misses == Gets(ops)
            && s.expiries <= s.misses
            && Inserts(config, ops) == |s.items| + s.evictions + s.expiries + Removals(config, ops)
    decreases |ops|
  {
    if ops != [] {
      CountersAddUp(config, Before(ops));
    }
  }

  /**
   A value just set is answered until its time: the lifetime it was given, or else the cache's own, or, with
   neither, for good; from the very moment that is over it is not.
   */
  lemma AnswersUntilItsTime<V>(config: Config, ops: seq<Op<V>>, key: string, value: V, ttl: Option<int>, since: real,
                               now: real)
    requires Bounded(config)
    ensures var over := if ttl.Some? then now - since >= ttl.value as real
                        else config.defaultTtl.Some? && now - since >= config.defaultTtl.value as real;
            GetStep(Run(config, ops + [Set(key, value, ttl, since)]), key, now).1 == if over then None else Some(value)
  {
    hide LastSet, LastUse, Run, Holds, OneItemEach;
    var all := ops + [Set(key, value, ttl, since)];
    LastStands(config, ops, key, value, ttl, since);
    var items := Run(config, all).items;
    OneStands(config, all, key);
    assert IndexOf(items, key) == Some(|items| - 1);
  }

  /** What was set last stands last, with its deadline. */
  lemma LastStands<V>(config: Config, ops: seq<Op<V>>, key: string, value: V, ttl: Option<int>, since: real)
    requires Bounded(config)
    ensures var items := Run(config, ops + [Set(key, value, ttl, since)]).items;
            items != [] && items[|items| - 1] == Item(key, Deadline(config, ttl, since), value)
  {
    hide Deadline;
    var all := ops + [Set(key, value, ttl, since)];
    assert Before(all) == ops && Last(all) == Set(key, value, ttl, since);
  }

  lemma OneStands<V>(config: Config, ops: seq<Op<V>>, key: string)
    requires Bounded(config)
    ensures var items := Run(config, ops).items;
            forall i, j | 0 <= i < |items| && 0 <= j < |items| && items[i].key == items[j].key :: i == j
  {
    EveryRunHolds(config, ops);
  }
}
