/** The metadata cache of crates/sap-automate-rfc/src/metadata_cache.rs around an arbitrary client. */
module MetadataCache {
  import opened Wrappers

  datatype Result<+T> = Ok(value: T) | Err(error: string)

  datatype Meta = Meta(name: string, body: string)
  datatype Bulk = Bulk(language: string, functions: seq<Meta>, missing: seq<string>)
  datatype Key = Key(name: string, language: string)
  datatype Entry = Entry(meta: Meta, cachedAt: nat)

  /** What the wrapped client answers at the moment it is asked. */
  datatype Client = Client(one: (string, string) -> Result<Meta>, many: (seq<string>, string) -> Result<Bulk>)

  datatype Cache = Cache(ttl: nat, entries: map<Key, Entry>, hits: nat, misses: nat, evictions: nat)

  predicate Fresh(c: Cache, k: Key, now: nat) {
    k in c.entries && (c.ttl == 0 || Elapsed(c.entries[k].cachedAt, now) <= c.ttl)
  }

  function Store(c: Cache, k: Key, meta: Meta, at: nat): Cache {
    if c.ttl == 0 then c else c.(entries := c.entries[k := Entry(meta, at)])
  }

  // ----- one name ------------------------------------------------------------------------

  /** Whether a lookup goes to the wrapped client. */
  predicate Asks(c: Cache, k: Key, now: nat) {
    c.ttl == 0 || !Fresh(c, k, now)
  }

  function Answer(c: Cache, k: Key, now: nat, inner: Client): Result<Meta> {
    if Asks(c, k, now) then inner.one(k.name, k.language) else Ok(c.entries[k].meta)
  }

  function LookedUp(c: Cache, k: Key, now: nat, inner: Client, at: nat): Cache {
    if Asks(c, k, now) then
      var missed := c.(misses := c.misses + 1);
      match inner.one(k.name, k.language)
      case Ok(meta) => Store(missed, k, meta, at)
      case Err(_) => missed
    else c.(hits := c.hits + 1)
  }

  // ----- many names ----------------------------------------------------------------------

  /** The answers the cache has for the names, `clock(i)` being the time of the i-th lookup. */
  function Found(c: Cache, names: seq<string>, language: string, clock: nat -> nat): seq<Meta> {
    if names == [] then []
    else
      var n := |names| - 1;
      var k := Key(names[n], language);
      Found(c, names[..n], language, clock) + if Fresh(c, k, clock(n)) then [c.entries[k].meta] else []
  }

  function Unfound(c: Cache, names: seq<string>, language: string, clock: nat -> nat): seq<string> {
    if names == [] then []
    else
      var n := |names| - 1;
      Unfound(c, names[..n], language, clock) + if Fresh(c, Key(names[n], language), clock(n)) then [] else [names[n]]
  }

  function StoreAll(c: Cache, metas: seq<Meta>, language: string, at: nat -> nat): Cache {
    if metas == [] then c
    else
      var n := |metas| - 1;
      Store(StoreAll(c, metas[..n], language, at), Key(metas[n].name, language), metas[n], at(n))
  }

  function BulkAnswer(c: Cache, names: seq<string>, language: string, clock: nat -> nat, inner: Client): Result<Bulk> {
    var found, rest := Found(c, names, language, clock), Unfound(c, names, language, clock);
    if rest == [] then Ok(Bulk(language, found, []))
    else match inner.many(rest, language)
      case Ok(bulk) => Ok(Bulk(language, found + bulk.functions, bulk.missing))
      case Err(e) => Err(e)
  }

  function Counted(c: Cache, names: seq<string>, language: string, clock: nat -> nat): Cache {
    c.(hits := c.hits + |Found(c, names, language, clock)|, misses := c.misses + |Unfound(c, names, language, clock)|)
  }

  function BulkLookedUp(c: Cache, names: seq<string>, language: string, clock: nat -> nat, inner: Client,
                        at: nat -> nat): Cache
  {
    var counted, rest := Counted(c, names, language, clock), Unfound(c, names, language, clock);
    if rest == [] then counted
    else match inner.many(rest, language)
      case Ok(bulk) => StoreAll(counted, bulk.functions, language, at)
      case Err(_) => counted
  }

  function Invalidated(c: Cache): Cache {
    c.(entries := map[], evictions := c.evictions + |c.entries|)
  }

  class MetadataCache {
    const ttl: nat
    var entries: map<Key, Entry>
    var hits: nat
    var misses: nat
    var evictions: nat

    function Value(): Cache
      reads this
    {
      Cache(ttl, entries, hits, misses, evictions)
    }

    constructor (ttl: nat)
      ensures Value() == Cache(ttl, map[], 0, 0, 0)
    {
      this.ttl := ttl;
      entries, hits, misses, evictions := map[], 0, 0, 0;
    }

    method GetFresh(k: Key, now: nat) returns (r: Option<Meta>)
      ensures r == if Fresh(Value(), k, now) then Some(entries[k].meta) else None
    {
      if k !in entries {
        return None;
      }
      var e := entries[k];
      if ttl == 0 || Elapsed(e.cachedAt, now) <= ttl {
        return Some(e.meta);
      }
      r := None;
    }

    method Put(k: Key, meta: Meta, at: nat)
      modifies this`entries
      ensures Value() == Store(old(Value()), k, meta, at)
    {
      if ttl == 0 {
        return;
      }
      entries := entries[k := Entry(meta, at)];
    }

    method InvalidateAll()
      modifies this
      ensures Value() == Invalidated(old(Value()))
    {
      var evicted := |entries|;
      entries := map[];
      evictions := evictions + evicted;
    }

    method RfcMetadata(name: string, language: string, now: nat, inner: Client, at: nat) returns (r: Result<Meta>)
      modifies this
      ensures r == Answer(old(Value()), Key(name, language), now, inner)
      ensures Value() == LookedUp(old(Value()), Key(name, language), now, inner, at)
    {
      var k := Key(name, language);
      if ttl == 0 {
        misses := misses + 1;
        return inner.one(name, language);
      }
      var cached := GetFresh(k, now);
      if cached.Some? {
        hits := hits + 1;
        return Ok(cached.value);
      }
      misses := misses + 1;
      r := inner.one(name, language);
      if r.Ok? {
        Put(k, r.value, at);
      }
    }

    /** Splits the names into those the cache answers and those it must ask for. */
    method Divide(names: seq<string>, language: string, clock: nat -> nat) returns (found: seq<Meta>, rest: seq<string>)
      ensures found == Found(Value(), names, language, clock)
      ensures rest == Unfound(Value(), names, language, clock)
    {
      found, rest := [], [];
      for i := 0 to |names|
        invariant found == Found(Value(), names[..i], language, clock)
        invariant rest == Unfound(Value(), names[..i], language, clock)
      {
        assert names[..i + 1][..i] == names[..i];
        var cached := GetFresh(Key(names[i], language), clock(i));
        match cached
        case Some(meta) => found := found + [meta];
        case None => rest := rest + [names[i]];
      }
      assert names[..|names|] == names;
    }

    method PutAll(metas: seq<Meta>, language: string, at: nat -> nat)
      modifies this`entries
      ensures Value() == StoreAll(old(Value()), metas, language, at)
    {
      for i := 0 to |metas|
        invariant Value() == StoreAll(old(Value()), metas[..i], language, at)
      {
        assert metas[..i + 1][..i] == metas[..i];
        Put(Key(metas[i].name, language), metas[i], at(i));
      }
      assert metas[..|metas|] == metas;
    }

    method BulkRfcMetadata(names: seq<string>, language: string, clock: nat -> nat, inner: Client, at: nat -> nat)
        returns (r: Result<Bulk>)
      modifies this
      ensures r == BulkAnswer(old(Value()), names, language, clock, inner)
      ensures Value() == BulkLookedUp(old(Value()), names, language, clock, inner, at)
    {
      var found, rest := Divide(names, language, clock);
      hits := hits + |found|;
      misses := misses + |rest|;
      if rest == [] {
        return Ok(Bulk(language, found, []));
      }
      var fetched := inner.many(rest, language);
      match fetched
      case Err(e) =>
        return Err(e);
      case Ok(bulk) =>
        PutAll(bulk.functions, language, at);
        r := Ok(Bulk(language, found + bulk.functions, bulk.missing));
    }
  }

  // ----- runs ----------------------------------------------------------------------------

  datatype Op =
    | One(key: Key, now: nat, inner: Client, at: nat)
    | Many(names: seq<string>, language: string, clock: nat -> nat, inner: Client, times: nat -> nat)
    | Flush

  /** A sequential run, latest operation outermost. */
  datatype History = Start | Then(past: History, op: Op)

  function After(h: History, ttl: nat): Cache {
    match h
    case Start => Cache(ttl, map[], 0, 0, 0)
    case Then(p, One(k, now, inner, at)) => LookedUp(After(p, ttl), k, now, inner, at)
    case Then(p, Many(names, l, clock, inner, at)) => BulkLookedUp(After(p, ttl), names, l, clock, inner, at)
    case Then(p, Flush) => Invalidated(After(p, ttl))
  }

  /** The bulk reply names `e.meta` itself as the record of `k`, and it was stored then. */
  predicate ListedIn(metas: seq<Meta>, language: string, at: nat -> nat, k: Key, e: Entry) {
    && metas != []
    && var n := |metas| - 1;
       || (k == Key(metas[n].name, language) && e == Entry(metas[n], at(n)))
       || ListedIn(metas[..n], language, at, k, e)
  }

  /** Since the last flush the wrapped client was asked and gave `e.meta` as the record of `k`, stored at
      `e.cachedAt`. */
  predicate Given(h: History, ttl: nat, k: Key, e: Entry) {
    match h
    case Start => false
    case Then(_, Flush) => false
    case Then(p, One(key, now, inner, at)) =>
      || (k == key && Asks(After(p, ttl), k, now) && inner.one(k.name, k.language) == Ok(e.meta) && e.cachedAt == at)
      || Given(p, ttl, k, e)
    case Then(p, Many(names, l, clock, inner, times)) =>
      || GivenInBulk(Unfound(After(p, ttl), names, l, clock), inner, l, times, k, e)
      || Given(p, ttl, k, e)
  }

  predicate GivenInBulk(asked: seq<string>, inner: Client, language: string, at: nat -> nat, k: Key, e: Entry) {
    && asked != []
    && var reply := inner.many(asked, language);
       reply.Ok? && ListedIn(reply.value.functions, language, at, k, e)
  }

  /** The bulk answers of such a client list only names it was asked for. */
  ghost predicate Obedient(inner: Client) {
    forall names, l :: inner.many(names, l).Ok? ==>
      forall i :: 0 <= i < |inner.many(names, l).value.functions| ==>
        inner.many(names, l).value.functions[i].name in names
  }

  lemma {:induction false} ListedWasAsked(metas: seq<Meta>, asked: seq<string>, language: string, at: nat -> nat,
                                          k: Key, e: Entry)
    requires ListedIn(metas, language, at, k, e) && forall i :: 0 <= i < |metas| ==> metas[i].name in asked
    ensures k.name in asked && k.language == language
  {
    var n := |metas| - 1;
    if k != Key(metas[n].name, language) {
      ListedWasAsked(metas[..n], asked, language, at, k, e);
    }
  }

  /** A record given in bulk by an obedient client is one of a name it was asked for. */
  lemma GivenWasAsked(asked: seq<string>, inner: Client, language: string, at: nat -> nat, k: Key, e: Entry)
    requires Obedient(inner) && GivenInBulk(asked, inner, language, at, k, e)
    ensures k.name in asked && k.language == language
  {
    ListedWasAsked(inner.many(asked, language).value.functions, asked, language, at, k, e);
  }

  lemma {:induction false} StoredAreListed(c: Cache, metas: seq<Meta>, language: string, at: nat -> nat, k: Key)
    requires k in StoreAll(c, metas, language, at).entries
    ensures var e := StoreAll(c, metas, language, at).entries[k];
            ListedIn(metas, language, at, k, e) || (k in c.entries && c.entries[k] == e)
  {
    if metas != [] {
      var n := |metas| - 1;
      var before := StoreAll(c, metas[..n], language, at);
      if k in before.entries {
        StoredAreListed(c, metas[..n], language, at, k);
      }
    }
  }

  /** Every entry is an answer the client gave for that very name and language since the last flush. */
  lemma {:induction false} EntriesWereGiven(h: History, ttl: nat, k: Key)
    requires k in After(h, ttl).entries
    ensures Given(h, ttl, k, After(h, ttl).entries[k])
  {
    var before := After(h.past, ttl);
    if k in before.entries && !h.op.Flush? {
      EntriesWereGiven(h.past, ttl, k);
    }
    if h.op.Many? {
      var names, l, clock, inner, at := h.op.names, h.op.language, h.op.clock, h.op.inner, h.op.times;
      var counted, rest := Counted(before, names, l, clock), Unfound(before, names, l, clock);
      if rest != [] && inner.many(rest, l).Ok? {
        StoredAreListed(counted, inner.many(rest, l).value.functions, l, at, k);
      }
    }
  }

  lemma {:induction false} TtlIsKept(h: History, ttl: nat)
    ensures After(h, ttl).ttl == ttl
    ensures ttl == 0 ==> After(h, ttl).entries == map[]
  {
    if h.Then? {
      TtlIsKept(h.past, ttl);
      if h.op.Many? {
        BulkKeepsTtl(After(h.past, ttl), h.op.names, h.op.language, h.op.clock, h.op.inner, h.op.times);
      }
    }
  }

  lemma BulkKeepsTtl(c: Cache, names: seq<string>, language: string, clock: nat -> nat, inner: Client, at: nat -> nat)
    ensures var r := BulkLookedUp(c, names, language, clock, inner, at);
            r.ttl == c.ttl && (c.ttl == 0 ==> r.entries == c.entries)
  {
    var counted, rest := Counted(c, names, language, clock), Unfound(c, names, language, clock);
    if rest != [] && inner.many(rest, language).Ok? {
      StoreAllKeepsTtl(counted, inner.many(rest, language).value.functions, language, at);
    }
  }

  lemma {:induction false} StoreAllKeepsTtl(c: Cache, metas: seq<Meta>, language: string, at: nat -> nat)
    ensures StoreAll(c, metas, language, at).ttl == c.ttl
    ensures c.ttl == 0 ==> StoreAll(c, metas, language, at) == c
  {
    if metas != [] {
      StoreAllKeepsTtl(c, metas[..|metas| - 1], language, at);
    }
  }

  /** An answer comes from the client in this very call, or it was given for the same name and language since
      the last flush and stored at most one TTL ago. */
  ghost predicate Sourced(h: History, ttl: nat, k: Key, now: nat, meta: Meta) {
    exists at: nat :: Given(h, ttl, k, Entry(meta, at)) && now - at <= ttl
  }

  lemma FreshIsSourced(h: History, ttl: nat, k: Key, now: nat)
    requires Fresh(After(h, ttl), k, now)
    ensures ttl > 0 && Sourced(h, ttl, k, now, After(h, ttl).entries[k].meta)
  {
    TtlIsKept(h, ttl);
    EntriesWereGiven(h, ttl, k);
    var e := After(h, ttl).entries[k];
    assert e == Entry(e.meta, e.cachedAt);
  }

  lemma AnswerIsSourced(h: History, ttl: nat, k: Key, now: nat, inner: Client)
    ensures var r := Answer(After(h, ttl), k, now, inner);
            r == inner.one(k.name, k.language) || (r.Ok? && ttl > 0 && Sourced(h, ttl, k, now, r.value))
  {
    if !Asks(After(h, ttl), k, now) {
      FreshIsSourced(h, ttl, k, now);
    }
  }

  /** Every record of a bulk answer that the client did not give just now was given for one of the names. */
  ghost predicate SourcedAmong(h: History, ttl: nat, names: seq<string>, language: string, clock: nat -> nat,
                               meta: Meta) {
    exists i :: 0 <= i < |names| && Sourced(h, ttl, Key(names[i], language), clock(i), meta)
  }

  lemma {:induction false} FoundAreSourced(h: History, ttl: nat, names: seq<string>, language: string,
                                           clock: nat -> nat, meta: Meta)
    requires meta in Found(After(h, ttl), names, language, clock)
    ensures SourcedAmong(h, ttl, names, language, clock, meta)
  {
    var n := |names| - 1;
    var front := names[..n];
    if meta in Found(After(h, ttl), front, language, clock) {
      FoundAreSourced(h, ttl, front, language, clock, meta);
      var i :| 0 <= i < |front| && Sourced(h, ttl, Key(front[i], language), clock(i), meta);
      assert names[i] == front[i];
    } else {
      FreshIsSourced(h, ttl, Key(names[n], language), clock(n));
    }
  }

  lemma BulkAnswerIsSourced(h: History, ttl: nat, names: seq<string>, language: string, clock: nat -> nat,
                            inner: Client)
    ensures var c := After(h, ttl);
            var asked := Unfound(c, names, language, clock);
            var r, reply := BulkAnswer(c, names, language, clock, inner), inner.many(asked, language);
            && (r.Err? ==> r == reply)
            && (r.Ok? ==> forall meta :: meta in r.value.functions ==>
                  (reply.Ok? && meta in reply.value.functions) || SourcedAmong(h, ttl, names, language, clock, meta))
  {
    var c := After(h, ttl);
    forall meta | meta in Found(c, names, language, clock)
      ensures SourcedAmong(h, ttl, names, language, clock, meta)
    {
      FoundAreSourced(h, ttl, names, language, clock, meta);
    }
  }

  // ----- what is served without the client -----------------------------------------------

  /** The records a bulk lookup fetches and stores. */
  function Fetched(c: Cache, names: seq<string>, language: string, clock: nat -> nat, inner: Client): seq<Meta> {
    var rest := Unfound(c, names, language, clock);
    if rest == [] then []
    else match inner.many(rest, language)
      case Ok(bulk) => bulk.functions
      case Err(_) => []
  }

  predicate Rising(times: nat -> nat, n: nat) {
    forall i, j :: 0 <= i <= j < n ==> times(i) <= times(j)
  }

  /** The clock never goes back from one store to the next, and does not show more than `t`. */
  predicate Clocked(h: History, ttl: nat, t: nat) {
    match h
    case Start => true
    case Then(p, Flush) => Clocked(p, ttl, t)
    case Then(p, One(_, _, _, at)) => at <= t && Clocked(p, ttl, at)
    case Then(p, Many(names, l, clock, inner, times)) =>
      var n := |Fetched(After(p, ttl), names, l, clock, inner)|;
      if n == 0 then Clocked(p, ttl, t) else Rising(times, n) && times(n - 1) <= t && Clocked(p, ttl, times(0))
  }

  /** Of the entries for a key the cache holds one at least as late as any given. */
  predicate Holds(c: Cache, k: Key, t: nat) {
    k in c.entries && t <= c.entries[k].cachedAt
  }

  lemma {:induction false} StoreAllHolds(c: Cache, metas: seq<Meta>, language: string, at: nat -> nat, k: Key, t: nat)
    requires c.ttl > 0 && Holds(c, k, t) && forall i :: 0 <= i < |metas| ==> t <= at(i)
    ensures Holds(StoreAll(c, metas, language, at), k, t)
  {
    if metas != [] {
      StoreAllHolds(c, metas[..|metas| - 1], language, at, k, t);
      StoreAllKeepsTtl(c, metas[..|metas| - 1], language, at);
    }
  }

  lemma {:induction false} ListedIsHeld(c: Cache, metas: seq<Meta>, language: string, at: nat -> nat, k: Key, e: Entry)
    requires c.ttl > 0 && Rising(at, |metas|) && ListedIn(metas, language, at, k, e)
    ensures Holds(StoreAll(c, metas, language, at), k, e.cachedAt)
    ensures e.cachedAt <= at(|metas| - 1)
  {
    var n := |metas| - 1;
    StoreAllKeepsTtl(c, metas[..n], language, at);
    if !(k == Key(metas[n].name, language) && e == Entry(metas[n], at(n))) {
      ListedIsHeld(c, metas[..n], language, at, k, e);
      assert at(n - 1) <= at(n);
    }
  }

  lemma BulkStores(c: Cache, names: seq<string>, language: string, clock: nat -> nat, inner: Client, at: nat -> nat)
    ensures BulkLookedUp(c, names, language, clock, inner, at)
            == StoreAll(Counted(c, names, language, clock), Fetched(c, names, language, clock, inner), language, at)
  {
  }

  lemma GivenInBulkIsListed(c: Cache, names: seq<string>, language: string, clock: nat -> nat, inner: Client,
                            at: nat -> nat, k: Key, e: Entry)
    ensures GivenInBulk(Unfound(c, names, language, clock), inner, language, at, k, e)
            <==> ListedIn(Fetched(c, names, language, clock, inner), language, at, k, e)
  {
  }

  lemma {:induction false} GivenIsHeld(h: History, ttl: nat, t: nat, k: Key, e: Entry)
    requires ttl > 0 && Clocked(h, ttl, t) && Given(h, ttl, k, e)
    ensures Holds(After(h, ttl), k, e.cachedAt) && e.cachedAt <= t
  {
    var p := h.past;
    var c := After(p, ttl);
    TtlIsKept(p, ttl);
    match h.op
    case One(key, now, inner, at) =>
      if Given(p, ttl, k, e) {
        GivenIsHeld(p, ttl, at, k, e);
      }
    case Many(names, l, clock, inner, times) =>
      var metas := Fetched(c, names, l, clock, inner);
      BulkStores(c, names, l, clock, inner, times);
      GivenInBulkIsListed(c, names, l, clock, inner, times, k, e);
      if ListedIn(metas, l, times, k, e) {
        ListedIsHeld(Counted(c, names, l, clock), metas, l, times, k, e);
      } else {
        GivenIsHeld(p, ttl, if metas == [] then t else times(0), k, e);
        StoreAllHolds(Counted(c, names, l, clock), metas, l, times, k, e.cachedAt);
      }
  }

  /** The client gave a record of that name and language, alone or in bulk, since the last flush and at most one
      TTL ago. */
  ghost predicate Recent(h: History, ttl: nat, k: Key, now: nat) {
    ttl > 0 && exists e :: Given(h, ttl, k, e) && now - e.cachedAt <= ttl
  }

  lemma FreshIsRecent(h: History, ttl: nat, t: nat, k: Key, now: nat)
    requires Clocked(h, ttl, t)
    ensures Fresh(After(h, ttl), k, now) <==> Recent(h, ttl, k, now)
  {
    TtlIsKept(h, ttl);
    if Fresh(After(h, ttl), k, now) {
      EntriesWereGiven(h, ttl, k);
    }
    if Recent(h, ttl, k, now) {
      var e :| Given(h, ttl, k, e) && now - e.cachedAt <= ttl;
      GivenIsHeld(h, ttl, t, k, e);
    }
  }

  /** A lookup is answered without the client if and only if the client gave such a record. */
  lemma ServedExactly(h: History, ttl: nat, t: nat, k: Key, now: nat)
    requires Clocked(h, ttl, t)
    ensures !Asks(After(h, ttl), k, now) <==> Recent(h, ttl, k, now)
  {
    TtlIsKept(h, ttl);
    FreshIsRecent(h, ttl, t, k, now);
  }

  /** And a bulk lookup asks the client for exactly the other names. */
  lemma {:induction false} AskedExactly(h: History, ttl: nat, t: nat, names: seq<string>, language: string,
                                        clock: nat -> nat, name: string)
    requires Clocked(h, ttl, t)
    ensures name in Unfound(After(h, ttl), names, language, clock)
            <==> exists i :: 0 <= i < |names| && names[i] == name && !Recent(h, ttl, Key(name, language), clock(i))
  {
    if names != [] {
      var n := |names| - 1;
      AskedExactly(h, ttl, t, names[..n], language, clock, name);
      FreshIsRecent(h, ttl, t, Key(names[n], language), clock(n));
      if i :| 0 <= i < n && names[..n][i] == name && !Recent(h, ttl, Key(name, language), clock(i)) {
        assert names[i] == name;
      }
      if i :| 0 <= i < n && names[i] == name && !Recent(h, ttl, Key(name, language), clock(i)) {
        assert names[..n][i] == name;
      }
    }
  }

  // ----- counters ------------------------------------------------------------------------

  function Names(h: History): nat {
    match h
    case Start => 0
    case Then(p, One(_, _, _, _)) => Names(p) + 1
    case Then(p, Many(names, _, _, _, _)) => Names(p) + |names|
    case Then(p, Flush) => Names(p)
  }

  lemma {:induction false} DivisionCounts(c: Cache, names: seq<string>, language: string, clock: nat -> nat)
    ensures |Found(c, names, language, clock)| + |Unfound(c, names, language, clock)| == |names|
  {
    if names != [] {
      DivisionCounts(c, names[..|names| - 1], language, clock);
    }
  }

  lemma {:induction false} StoreAllKeepsCounters(c: Cache, metas: seq<Meta>, language: string, at: nat -> nat)
    ensures var r := StoreAll(c, metas, language, at); r.hits == c.hits && r.misses == c.misses
  {
    if metas != [] {
      StoreAllKeepsCounters(c, metas[..|metas| - 1], language, at);
    }
  }

  lemma BulkCounts(c: Cache, names: seq<string>, language: string, clock: nat -> nat, inner: Client, at: nat -> nat)
    ensures var r := BulkLookedUp(c, names, language, clock, inner, at);
            r.hits + r.misses == c.hits + c.misses + |names|
  {
    DivisionCounts(c, names, language, clock);
    var counted, rest := Counted(c, names, language, clock), Unfound(c, names, language, clock);
    if rest != [] && inner.many(rest, language).Ok? {
      StoreAllKeepsCounters(counted, inner.many(rest, language).value.functions, language, at);
    }
  }

  /** Over any run, hits and misses together are the names looked up. */
  lemma {:induction false} EveryNameIsCounted(h: History, ttl: nat)
    ensures After(h, ttl).hits + After(h, ttl).misses == Names(h)
  {
    if h.Then? {
      EveryNameIsCounted(h.past, ttl);
      if h.op.Many? {
        BulkCounts(After(h.past, ttl), h.op.names, h.op.language, h.op.clock, h.op.inner, h.op.times);
      }
    }
  }

  /** How many names the client was asked for, alone or in bulk. */
  function AskedNames(h: History, ttl: nat): nat {
    match h
    case Start => 0
    case Then(p, One(k, now, _, _)) => AskedNames(p, ttl) + if Asks(After(p, ttl), k, now) then 1 else 0
    case Then(p, Many(names, l, clock, _, _)) => AskedNames(p, ttl) + |Unfound(After(p, ttl), names, l, clock)|
    case Then(p, Flush) => AskedNames(p, ttl)
  }

  /** Over any run, the misses are the names the client was asked for. */
  lemma {:induction false} MissesAreAsked(h: History, ttl: nat)
    ensures After(h, ttl).misses == AskedNames(h, ttl)
  {
    if h.Then? {
      MissesAreAsked(h.past, ttl);
      if h.op.Many? {
        var c := After(h.past, ttl);
        BulkStores(c, h.op.names, h.op.language, h.op.clock, h.op.inner, h.op.times);
        StoreAllKeepsCounters(Counted(c, h.op.names, h.op.language, h.op.clock),
                              Fetched(c, h.op.names, h.op.language, h.op.clock, h.op.inner), h.op.language, h.op.times);
      }
    }
  }

  // ----- an unchanging catalogue ---------------------------------------------------------

  type Catalogue = map<Key, Meta>

  /** Each record is listed under its own name. */
  predicate Proper(cat: Catalogue) {
    forall k :: k in cat ==> cat[k].name == k.name
  }

  function Listed(cat: Catalogue, names: seq<string>, language: string): seq<Meta> {
    if names == [] then []
    else
      var n := |names| - 1;
      var k := Key(names[n], language);
      Listed(cat, names[..n], language) + if k in cat then [cat[k]] else []
  }

  function Unlisted(cat: Catalogue, names: seq<string>, language: string): seq<string> {
    if names == [] then []
    else
      var n := |names| - 1;
      Unlisted(cat, names[..n], language) + if Key(names[n], language) in cat then [] else [names[n]]
  }

  function LookupOne(cat: Catalogue, name: string, language: string): Result<Meta> {
    var k := Key(name, language);
    if k in cat then Ok(cat[k]) else Err(name)
  }

  function LookupMany(cat: Catalogue, names: seq<string>, language: string): Result<Bulk> {
    Ok(Bulk(language, Listed(cat, names, language), Unlisted(cat, names, language)))
  }

  /** The client answers from the catalogue. */
  ghost predicate Serves(inner: Client, cat: Catalogue) {
    && (forall name, l :: inner.one(name, l) == LookupOne(cat, name, l))
    && (forall names, l :: inner.many(names, l) == LookupMany(cat, names, l))
  }

  ghost predicate ServedThroughout(h: History, cat: Catalogue) {
    match h
    case Start => true
    case Then(p, Flush) => ServedThroughout(p, cat)
    case Then(p, op) => ServedThroughout(p, cat) && Serves(op.inner, cat)
  }

  predicate Agrees(c: Cache, cat: Catalogue) {
    forall k :: k in c.entries ==> k in cat && c.entries[k].meta == cat[k]
  }

  predicate Records(cat: Catalogue, metas: seq<Meta>, language: string) {
    forall i :: 0 <= i < |metas| ==> var k := Key(metas[i].name, language); k in cat && cat[k] == metas[i]
  }

  lemma {:induction false} StoredFromCatalogue(cat: Catalogue, names: seq<string>, language: string)
    requires Proper(cat)
    ensures Records(cat, Listed(cat, names, language), language)
  {
    if names != [] {
      StoredFromCatalogue(cat, names[..|names| - 1], language);
    }
  }

  lemma {:induction false} StoreRecordsAgrees(c: Cache, cat: Catalogue, metas: seq<Meta>, language: string,
                                              at: nat -> nat)
    requires Agrees(c, cat) && Records(cat, metas, language)
    ensures Agrees(StoreAll(c, metas, language, at), cat)
  {
    if metas != [] {
      StoreRecordsAgrees(c, cat, metas[..|metas| - 1], language, at);
    }
  }

  lemma BulkAgrees(c: Cache, cat: Catalogue, names: seq<string>, language: string, clock: nat -> nat, inner: Client,
                   at: nat -> nat)
    requires Proper(cat) && Agrees(c, cat) && Serves(inner, cat)
    ensures Agrees(BulkLookedUp(c, names, language, clock, inner, at), cat)
  {
    var counted, rest := Counted(c, names, language, clock), Unfound(c, names, language, clock);
    StoredFromCatalogue(cat, rest, language);
    StoreRecordsAgrees(counted, cat, Listed(cat, rest, language), language, at);
    assert inner.many(rest, language) == LookupMany(cat, rest, language);
  }

  lemma {:induction false} CacheAgrees(h: History, ttl: nat, cat: Catalogue)
    requires Proper(cat) && ServedThroughout(h, cat)
    ensures Agrees(After(h, ttl), cat)
  {
    match h
    case Start =>
    case Then(p, Flush) =>
    case Then(p, One(k, now, inner, at)) =>
      CacheAgrees(p, ttl, cat);
    case Then(p, Many(names, l, clock, inner, at)) =>
      CacheAgrees(p, ttl, cat);
      BulkAgrees(After(p, ttl), cat, names, l, clock, inner, at);
  }

  /** These answers and those to the rest make up the answers to all names. */
  predicate Complements(cat: Catalogue, found: seq<Meta>, rest: seq<string>, names: seq<string>, language: string) {
    && multiset(found + Listed(cat, rest, language)) == multiset(Listed(cat, names, language))
    && Unlisted(cat, rest, language) == Unlisted(cat, names, language)
  }

  lemma Swap(a: seq<Meta>, b: seq<Meta>, c: seq<Meta>, m: Meta)
    requires multiset(a + b) == multiset(c)
    ensures multiset((a + [m]) + b) == multiset(c + [m]) && multiset(a + (b + [m])) == multiset(c + [m])
  {
    assert a + (b + [m]) == (a + b) + [m];
  }

  lemma FoundLast(cat: Catalogue, found: seq<Meta>, rest: seq<string>, front: seq<string>, name: string,
                  language: string)
    requires Complements(cat, found, rest, front, language) && Key(name, language) in cat
    ensures Complements(cat, found + [cat[Key(name, language)]], rest, front + [name], language)
  {
    Swap(found, Listed(cat, rest, language), Listed(cat, front, language), cat[Key(name, language)]);
  }

  lemma UnfoundLast(cat: Catalogue, found: seq<Meta>, rest: seq<string>, front: seq<string>, name: string,
                    language: string)
    requires Complements(cat, found, rest, front, language)
    ensures Complements(cat, found, rest + [name], front + [name], language)
  {
    if Key(name, language) in cat {
      Swap(found, Listed(cat, rest, language), Listed(cat, front, language), cat[Key(name, language)]);
    }
  }

  lemma DivideLast(c: Cache, front: seq<string>, name: string, language: string, clock: nat -> nat)
    ensures var k := Key(name, language);
            var found, rest := Found(c, front, language, clock), Unfound(c, front, language, clock);
            if Fresh(c, k, clock(|front|)) then
              Found(c, front + [name], language, clock) == found + [c.entries[k].meta]
              && Unfound(c, front + [name], language, clock) == rest
            else
              Found(c, front + [name], language, clock) == found
              && Unfound(c, front + [name], language, clock) == rest + [name]
  {
    assert (front + [name])[..|front|] == front;
  }

  /** What the cache answers and what it must ask for make up what the client alone would answer. */
  predicate Divides(c: Cache, cat: Catalogue, names: seq<string>, language: string, clock: nat -> nat) {
    Complements(cat, Found(c, names, language, clock), Unfound(c, names, language, clock), names, language)
  }

  lemma DivisionStep(c: Cache, cat: Catalogue, front: seq<string>, name: string, language: string, clock: nat -> nat)
    requires Agrees(c, cat) && Divides(c, cat, front, language, clock)
    ensures Divides(c, cat, front + [name], language, clock)
  {
    var found, rest := Found(c, front, language, clock), Unfound(c, front, language, clock);
    DivideLast(c, front, name, language, clock);
    if Fresh(c, Key(name, language), clock(|front|)) {
      FoundLast(cat, found, rest, front, name, language);
    } else {
      UnfoundLast(cat, found, rest, front, name, language);
    }
  }

  lemma {:induction false} DivisionOfPrefix(c: Cache, cat: Catalogue, names: seq<string>, language: string,
                                            clock: nat -> nat, n: nat)
    requires Agrees(c, cat) && n <= |names|
    ensures Divides(c, cat, names[..n], language, clock)
  {
    if n == 0 {
      assert names[..0] == [];
    } else {
      DivisionOfPrefix(c, cat, names, language, clock, n - 1);
      DivisionStep(c, cat, names[..n - 1], names[n - 1], language, clock);
      assert names[..n] == names[..n - 1] + [names[n - 1]];
    }
  }

  lemma DivisionIsPermutation(c: Cache, cat: Catalogue, names: seq<string>, language: string, clock: nat -> nat)
    requires Agrees(c, cat)
    ensures Complements(cat, Found(c, names, language, clock), Unfound(c, names, language, clock), names, language)
  {
    DivisionOfPrefix(c, cat, names, language, clock, |names|);
    assert names[..|names|] == names;
  }

  /** For an unchanging catalogue the cache is invisible: one name gets the client's own answer, many names a
      permutation of it with the same missing names in the same order. */
  lemma CacheIsTransparent(h: History, ttl: nat, cat: Catalogue, inner: Client, k: Key, now: nat,
                           names: seq<string>, language: string, clock: nat -> nat)
    requires Proper(cat) && ServedThroughout(h, cat) && Serves(inner, cat)
    ensures Answer(After(h, ttl), k, now, inner) == inner.one(k.name, k.language)
    ensures var r, plain := BulkAnswer(After(h, ttl), names, language, clock, inner), inner.many(names, language);
            && r.Ok? && plain.Ok?
            && r.value.language == plain.value.language && r.value.missing == plain.value.missing
            && multiset(r.value.functions) == multiset(plain.value.functions)
  {
    CacheAgrees(h, ttl, cat);
    DivisionIsPermutation(After(h, ttl), cat, names, language, clock);
  }
}
