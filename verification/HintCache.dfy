/** The cache of hinting instances: two small lists that must hold the most recently requested keys. */
module HintCache {
  import opened Wrappers

  const MAX_CACHED_HINT_INSTANCES: nat := 16
  const U64_MAX: nat := 0xFFFF_FFFF_FFFF_FFFF

  datatype Format = Glyf | Cff

  /** What a hinting instance is for, which is all that a lookup compares. */
  datatype Instance = Instance(size: int, coords: seq<int>)

  datatype HintKey = HintKey(fontId: nat, fontIndex: nat, instance: Instance)

  /** `ready` unless the last attempt to configure the instance failed; the cache itself does not record it. */
  datatype HintEntry = HintEntry(fontId: nat, fontIndex: nat, instance: Instance, serial: nat, ready: bool) {
    function Key(): HintKey { HintKey(fontId, fontIndex, instance) }
  }

  type Request = (Format, HintKey)

  /** When a key was last asked for, counting requests from 1; 0 if never. */
  ghost function LastUse(history: seq<Request>, r: Request): (n: nat)
    ensures n <= |history| && (n > 0 ==> history[n - 1] == r)
  {
    if history == [] then 0
    else if history[|history| - 1] == r then |history|
    else LastUse(history[..|history| - 1], r)
  }

  ghost predicate Cached(entries: seq<HintEntry>, key: HintKey) {
    exists i :: 0 <= i < |entries| && entries[i].Key() == key
  }

  ghost predicate AllNewer(entries: seq<HintEntry>, n: nat) {
    forall i :: 0 <= i < |entries| ==> n < entries[i].serial
  }

  /** The list holds the most recently requested distinct keys of its format, at most sixteen, each with its last use. */
  ghost predicate MostRecent(entries: seq<HintEntry>, history: seq<Request>, format: Format) {
    && |entries| <= MAX_CACHED_HINT_INSTANCES
    && (forall i, j :: 0 <= i < j < |entries| ==> entries[i].Key() != entries[j].Key())
    && (forall i :: 0 <= i < |entries| ==>
          entries[i].serial == LastUse(history, (format, entries[i].Key())) && entries[i].serial > 0)
    && (forall key {:trigger Cached(entries, key)} :: LastUse(history, (format, key)) > 0 && !Cached(entries, key) ==>
          |entries| == MAX_CACHED_HINT_INSTANCES && AllNewer(entries, LastUse(history, (format, key))))
  }

  /** A last use is one, and none is later. */
  lemma {:induction false} LastUseIsLast(history: seq<Request>, r: Request)
    ensures LastUse(history, r) > 0 <==> r in history
    ensures forall k :: LastUse(history, r) <= k < |history| ==> history[k] != r
  {
    if history != [] {
      var n := |history| - 1;
      LastUseIsLast(history[..n], r);
      assert history == history[..n] + [history[n]];
      assert forall k :: 0 <= k < n ==> history[..n][k] == history[k];
    }
  }

  /** In numbers: at most sixteen entries, each requested; what was requested and is not held has sixteen entries requested after it. */
  lemma MostRecentMeans(entries: seq<HintEntry>, history: seq<Request>, format: Format)
    requires MostRecent(entries, history, format)
    ensures |entries| <= 16 && forall i :: 0 <= i < |entries| ==> (format, entries[i].Key()) in history
    ensures forall i, k :: 0 <= i < |entries| && entries[i].serial <= k < |history| ==> history[k] != (format, entries[i].Key())
    ensures forall k :: 0 <= k < |history| && history[k].0 == format && !Cached(entries, history[k].1) ==>
              |entries| == 16 && AllNewer(entries, k + 1)
  {
    forall i | 0 <= i < |entries|
      ensures (format, entries[i].Key()) in history
      ensures forall k :: entries[i].serial <= k < |history| ==> history[k] != (format, entries[i].Key())
    {
      LastUseIsLast(history, (format, entries[i].Key()));
    }
    forall k | 0 <= k < |history| && history[k].0 == format && !Cached(entries, history[k].1)
      ensures |entries| == 16 && AllNewer(entries, k + 1)
    {
      assert history[k] == (format, history[k].1) && history[k] in history;
      LastUseIsLast(history, history[k]);
    }
  }

  /** Serials are never shared, within a list or between the lists. */
  lemma SerialsDistinct(glyf: seq<HintEntry>, cff: seq<HintEntry>, history: seq<Request>)
    requires MostRecent(glyf, history, Glyf) && MostRecent(cff, history, Cff)
    ensures forall i, j :: 0 <= i < j < |glyf| ==> glyf[i].serial != glyf[j].serial
    ensures forall i, j :: 0 <= i < j < |cff| ==> cff[i].serial != cff[j].serial
    ensures forall i, j :: 0 <= i < |glyf| && 0 <= j < |cff| ==> glyf[i].serial != cff[j].serial
  {
    SerialsDistinctIn(glyf, history, Glyf);
    SerialsDistinctIn(cff, history, Cff);
    forall i, j | 0 <= i < |glyf| && 0 <= j < |cff| ensures glyf[i].serial != cff[j].serial {
      assert history[glyf[i].serial - 1] == (Glyf, glyf[i].Key()) && history[cff[j].serial - 1] == (Cff, cff[j].Key());
    }
  }

  lemma SerialsDistinctIn(entries: seq<HintEntry>, history: seq<Request>, format: Format)
    requires MostRecent(entries, history, format)
    ensures forall i, j :: 0 <= i < j < |entries| ==> entries[i].serial != entries[j].serial
  {
    forall i, j | 0 <= i < j < |entries| ensures entries[i].serial != entries[j].serial {
      assert history[entries[i].serial - 1] == (format, entries[i].Key()) && history[entries[j].serial - 1] == (format, entries[j].Key());
    }
  }

  /** `ix` is a least recently used entry. */
  ghost predicate IsOldest(entries: seq<HintEntry>, ix: nat) {
    ix < |entries| && forall i :: 0 <= i < |entries| ==> entries[ix].serial <= entries[i].serial
  }

  lemma LastUseAfter(history: seq<Request>, r: Request)
    ensures forall q :: LastUse(history + [r], q) == if q == r then |history| + 1 else LastUse(history, q)
  {
    assert (history + [r])[..|history|] == history;
  }

  /** A request of another format leaves a list as it should be. */
  lemma OtherFormat(entries: seq<HintEntry>, history: seq<Request>, format: Format, r: Request)
    requires MostRecent(entries, history, format) && r.0 != format
    ensures MostRecent(entries, history + [r], format)
  {
    LastUseAfter(history, r);
  }

  lemma StillCached(entries: seq<HintEntry>, entries': seq<HintEntry>, key: HintKey)
    requires |entries| <= |entries'|
    requires forall i :: 0 <= i < |entries| && entries[i].Key() == key ==> entries'[i].Key() == key
    ensures Cached(entries, key) ==> Cached(entries', key)
  {
    if Cached(entries, key) {
      var i :| 0 <= i < |entries| && entries[i].Key() == key;
      assert entries'[i].Key() == key;
    }
  }

  /** A hit: the entry becomes the newest. */
  lemma Hit(entries: seq<HintEntry>, history: seq<Request>, format: Format, entry: HintEntry, ix: nat)
    requires MostRecent(entries, history, format) && ix < |entries| && entries[ix].Key() == entry.Key()
    requires entry.serial == |history| + 1
    ensures MostRecent(entries[ix := entry], history + [(format, entry.Key())], format)
  {
    var key, entries' := entry.Key(), entries[ix := entry];
    LastUseAfter(history, (format, key));
    assert forall i :: 0 <= i < |entries| ==> entries'[i].Key() == entries[i].Key();
    forall k | LastUse(history + [(format, key)], (format, k)) > 0 && !Cached(entries', k)
      ensures |entries'| == MAX_CACHED_HINT_INSTANCES && AllNewer(entries', LastUse(history + [(format, key)], (format, k)))
    {
      assert entries'[ix].Key() == key;
      StillCached(entries, entries', k);
    }
  }

  /** A miss with room: the new entry is the newest. */
  lemma Added(entries: seq<HintEntry>, history: seq<Request>, format: Format, entry: HintEntry)
    requires MostRecent(entries, history, format) && !Cached(entries, entry.Key()) && |entries| < MAX_CACHED_HINT_INSTANCES
    requires entry.serial == |history| + 1
    ensures MostRecent(entries + [entry], history + [(format, entry.Key())], format)
  {
    var key, entries' := entry.Key(), entries + [entry];
    LastUseAfter(history, (format, key));
    assert entries'[|entries|].Key() == key;
    assert forall i :: 0 <= i < |entries| ==> entries'[i] == entries[i];
    forall k | LastUse(history, (format, k)) > 0 ensures Cached(entries', k) {
      StillCached(entries, entries', k);
    }
  }

  /** A miss without room: the least recently used entry makes way. */
  lemma Replaced(entries: seq<HintEntry>, history: seq<Request>, format: Format, entry: HintEntry, ix: nat)
    requires MostRecent(entries, history, format) && !Cached(entries, entry.Key()) && |entries| == MAX_CACHED_HINT_INSTANCES
    requires IsOldest(entries, ix) && entry.serial == |history| + 1
    ensures MostRecent(entries[ix := entry], history + [(format, entry.Key())], format)
  {
    var key, entries' := entry.Key(), entries[ix := entry];
    var history' := history + [(format, key)];
    LastUseAfter(history, (format, key));
    assert entries'[ix].Key() == key;
    forall i, j | 0 <= i < j < |entries'| ensures entries'[i].Key() != entries'[j].Key() {
      assert i != ix ==> entries'[i] == entries[i];
      assert j != ix ==> entries'[j] == entries[j];
    }
    forall k | LastUse(history', (format, k)) > 0 && !Cached(entries', k) ensures AllNewer(entries', LastUse(history', (format, k))) {
      assert k != key;
      var n := LastUse(history, (format, k));
      if k == entries[ix].Key() {
        forall i | 0 <= i < |entries'| ensures n < entries'[i].serial {
          if i != ix {
            assert entries[i].Key() != entries[ix].Key();
            assert history[entries[i].serial - 1] == (format, entries[i].Key());
          }
        }
      } else {
        StillCached(entries, entries', k);
      }
    }
  }

  function EntryFor(key: HintKey, serial: nat, ready: bool): (r: HintEntry)
    ensures r.Key() == key
  {
    HintEntry(key.fontId, key.fontIndex, key.instance, serial, ready)
  }

  /** The entry after use: stamped, and set to the key if it was for another one. */
  function Stamped(entry: HintEntry, key: HintKey, serial: nat, isCurrent: bool, reconfigures: bool, spoiled: Instance): (r: HintEntry)
    requires isCurrent ==> entry.Key() == key
    ensures r == EntryFor(if isCurrent || reconfigures then key else SpoiledKey(key, spoiled), serial,
                          if isCurrent then entry.ready else reconfigures)
  {
    var stamped := entry.(serial := serial);
    if isCurrent then stamped
    else stamped.(fontId := key.fontId, fontIndex := key.fontIndex, instance := if reconfigures then key.instance else spoiled,
                  ready := reconfigures)
  }

  /** The font library is only needed on a miss: to make an instance while there is room, to reconfigure one after. */
  ghost predicate Succeeds(entries: seq<HintEntry>, key: HintKey, makes: bool, reconfigures: bool) {
    Cached(entries, key) || if |entries| < MAX_CACHED_HINT_INSTANCES then makes else reconfigures
  }

  /** What the lookup may return for a key that could be made. */
  ghost predicate IsLookup(entries: seq<HintEntry>, key: HintKey, ix: nat, isCurrent: bool, entries': seq<HintEntry>) {
    if Cached(entries, key) then
      isCurrent && ix < |entries| && entries[ix].Key() == key && entries' == entries
    else if |entries| < MAX_CACHED_HINT_INSTANCES then
      isCurrent && ix == |entries| && entries' == entries + [EntryFor(key, 0, true)]
    else
      !isCurrent && IsOldest(entries, ix) && entries' == entries
  }

  /** Using the entry found, set to the key and stamped, keeps the list as it should be. */
  lemma UseKeepsMostRecent(entries: seq<HintEntry>, history: seq<Request>, format: Format, entry: HintEntry,
                           ix: nat, isCurrent: bool, entries': seq<HintEntry>)
    requires MostRecent(entries, history, format) && IsLookup(entries, entry.Key(), ix, isCurrent, entries')
    requires entry.serial == |history| + 1
    ensures ix < |entries'| && (isCurrent ==> entries'[ix].Key() == entry.Key())
    ensures MostRecent(entries'[ix := entry], history + [(format, entry.Key())], format)
  {
    if Cached(entries, entry.Key()) {
      Hit(entries, history, format, entry, ix);
    } else if |entries| < MAX_CACHED_HINT_INSTANCES {
      Added(entries, history, format, entry);
      assert entries'[ix := entry] == entries + [entry];
    } else {
      Replaced(entries, history, format, entry, ix);
    }
  }

  /** What every run keeps, also when the font library fails: at most sixteen entries a list, no stamp twice. */
  ghost predicate Tidy(entries: seq<HintEntry>, others: seq<HintEntry>, serial: nat) {
    && Stamps(entries, serial) && Stamps(others, serial)
    && forall i, j :: 0 <= i < |entries| && 0 <= j < |others| ==> entries[i].serial != others[j].serial
  }

  ghost predicate Stamps(entries: seq<HintEntry>, serial: nat) {
    && |entries| <= MAX_CACHED_HINT_INSTANCES
    && (forall i :: 0 <= i < |entries| ==> 0 < entries[i].serial <= serial)
    && (forall i, j :: 0 <= i < j < |entries| ==> entries[i].serial != entries[j].serial)
  }

  /** Lists of the most recently requested keys are tidy. */
  lemma MostRecentIsTidy(glyf: seq<HintEntry>, cff: seq<HintEntry>, history: seq<Request>)
    requires MostRecent(glyf, history, Glyf) && MostRecent(cff, history, Cff)
    ensures Tidy(glyf, cff, |history|)
  {
    SerialsDistinct(glyf, cff, history);
  }

  /** Whatever the entry used becomes, with a new stamp the lists stay tidy. */
  lemma UseKeepsTidy(entries: seq<HintEntry>, others: seq<HintEntry>, serial: nat, key: HintKey,
                     ix: nat, isCurrent: bool, entries': seq<HintEntry>, entry: HintEntry)
    requires Tidy(entries, others, serial) && IsLookup(entries, key, ix, isCurrent, entries') && entry.serial == serial + 1
    ensures ix < |entries'| && Tidy(entries'[ix := entry], others, serial + 1)
  {
  }

  /** The key is that of an entry that is not the least recently used one. */
  ghost predicate HeldByNewer(entries: seq<HintEntry>, key: HintKey) {
    exists i: nat :: i < |entries| && entries[i].Key() == key && !IsOldest(entries, i)
  }

  /** What the entry is for after a failed reconfiguration: the font asked for, and whatever the instance became. */
  function SpoiledKey(key: HintKey, spoiled: Instance): HintKey {
    HintKey(key.fontId, key.fontIndex, spoiled)
  }

  /** A failed reconfiguration leaves a list as if the spoiled key had been requested, unless a newer entry is for it. */
  lemma SpoilKeepsMostRecent(entries: seq<HintEntry>, history: seq<Request>, format: Format, ix: nat, entry: HintEntry)
    requires MostRecent(entries, history, format) && Stamps(entries, |history|)
    requires |entries| == MAX_CACHED_HINT_INSTANCES && IsOldest(entries, ix) && entry.serial == |history| + 1
    ensures MostRecent(entries[ix := entry], history + [(format, entry.Key())], format) <==> !HeldByNewer(entries, entry.Key())
  {
    var entries', put := entries[ix := entry], entry.Key();
    if HeldByNewer(entries, put) {
      var i: nat :| i < |entries| && entries[i].Key() == put && !IsOldest(entries, i);
      assert entries'[i].Key() == put && entries'[ix].Key() == put;
    } else if entries[ix].Key() == put {
      Hit(entries, history, format, entry, ix);
    } else {
      OldestIsUnique(entries, |history|, ix);
      Replaced(entries, history, format, entry, ix);
    }
  }

  /** A size above those of all entries. */
  ghost function UnusedSize(entries: seq<HintEntry>): (size: int)
    ensures forall i :: 0 <= i < |entries| ==> entries[i].instance.size < size
  {
    if entries == [] then 0
    else
      var n := |entries| - 1;
      var rest := UnusedSize(entries[..n]);
      assert forall i :: 0 <= i < n ==> entries[i] == entries[..n][i];
      if rest <= entries[n].instance.size then entries[n].instance.size + 1 else rest
  }

  /** Every full list can be spoiled: some request and some failure leave it with two entries for one key. */
  lemma EveryFullListCanBeSpoiled(entries: seq<HintEntry>, serial: nat)
    requires Stamps(entries, serial) && |entries| == MAX_CACHED_HINT_INSTANCES
    ensures exists key, spoiled :: !Cached(entries, key) && HeldByNewer(entries, SpoiledKey(key, spoiled))
  {
    var i: nat := if IsOldest(entries, 0) then 1 else 0;
    if IsOldest(entries, 0) {
      OldestIsUnique(entries, serial, 0);
    }
    var key := HintKey(entries[i].fontId, entries[i].fontIndex, Instance(UnusedSize(entries), []));
    assert !Cached(entries, key);
    assert entries[i].Key() == SpoiledKey(key, entries[i].instance);
    assert HeldByNewer(entries, SpoiledKey(key, entries[i].instance));
  }

  lemma OldestIsUnique(entries: seq<HintEntry>, serial: nat, ix: nat)
    requires Stamps(entries, serial) && IsOldest(entries, ix)
    ensures forall i: nat :: i < |entries| && i != ix ==> !IsOldest(entries, i)
  {
    forall i: nat | i < |entries| && i != ix ensures !IsOldest(entries, i) {
      assert if i < ix then entries[i].serial != entries[ix].serial else entries[ix].serial != entries[i].serial;
      assert entries[ix].serial <= entries[i].serial;
    }
  }

  /** No entry could be found or made. */
  ghost predicate Missing(entries: seq<HintEntry>, key: HintKey, makes: bool) {
    !makes && !Cached(entries, key) && |entries| < MAX_CACHED_HINT_INSTANCES
  }

  lemma StampsBelow(glyf: seq<HintEntry>, cff: seq<HintEntry>, serial: nat)
    requires Tidy(glyf, cff, serial)
    ensures Stamps(glyf, serial) && Stamps(cff, serial)
  {
  }

  /** The entry found can be used, and using it succeeds exactly when it is current or can be reconfigured. */
  lemma LookupMeans(entries: seq<HintEntry>, key: HintKey, ix: nat, isCurrent: bool, entries': seq<HintEntry>, makes: bool, reconfigures: bool)
    requires |entries| <= MAX_CACHED_HINT_INSTANCES && IsLookup(entries, key, ix, isCurrent, entries') && !Missing(entries, key, makes)
    ensures ix < |entries'| && (isCurrent ==> entries'[ix].Key() == key)
    ensures Succeeds(entries, key, makes, reconfigures) <==> isCurrent || reconfigures
  {
  }

  /** Using the entry found in one list, whether or not reconfiguring it succeeds. */
  lemma UseIsRecent(entries: seq<HintEntry>, history: seq<Request>, format: Format, key: HintKey,
                    ix: nat, isCurrent: bool, used: seq<HintEntry>, entry: HintEntry, succeeds: bool)
    requires MostRecent(entries, history, format) && Stamps(entries, |history|) && IsLookup(entries, key, ix, isCurrent, used)
    requires (isCurrent ==> succeeds) && (succeeds ==> entry.Key() == key) && entry.serial == |history| + 1
    ensures ix < |used|
    ensures MostRecent(used[ix := entry], history + [(format, entry.Key())], format) <==> succeeds || !HeldByNewer(entries, entry.Key())
  {
    if succeeds {
      UseKeepsMostRecent(entries, history, format, entry, ix, isCurrent, used);
    } else {
      SpoilKeepsMostRecent(entries, history, format, ix, entry);
    }
  }

  /** Using the entry found in one of the two lists. */
  lemma UseKeeps(glyf: seq<HintEntry>, cff: seq<HintEntry>, history: seq<Request>, format: Format, key: HintKey,
                 ix: nat, isCurrent: bool, used: seq<HintEntry>, entry: HintEntry, succeeds: bool,
                 glyf': seq<HintEntry>, cff': seq<HintEntry>, history': seq<Request>)
    requires Tidy(glyf, cff, |history|) && IsLookup(if format.Glyf? then glyf else cff, key, ix, isCurrent, used)
    requires (isCurrent ==> succeeds) && (succeeds ==> entry.Key() == key) && entry.serial == |history| + 1
    requires ix < |used| && history' == history + [(format, entry.Key())]
    requires glyf' == (if format.Glyf? then used[ix := entry] else glyf) && cff' == if format.Glyf? then cff else used[ix := entry]
    ensures Tidy(glyf', cff', |history| + 1)
    ensures MostRecent(glyf, history, Glyf) && MostRecent(cff, history, Cff) ==>
              (MostRecent(glyf', history', Glyf) && MostRecent(cff', history', Cff) <==>
                succeeds || !HeldByNewer(if format.Glyf? then glyf else cff, entry.Key()))
  {
    var entries, others := if format.Glyf? then glyf else cff, if format.Glyf? then cff else glyf;
    UseKeepsTidy(entries, others, |history|, key, ix, isCurrent, used, entry);
    if MostRecent(glyf, history, Glyf) && MostRecent(cff, history, Cff) {
      UseIsRecent(entries, history, format, key, ix, isCurrent, used, entry, succeeds);
      OtherFormat(others, history, if format.Glyf? then Cff else Glyf, (format, entry.Key()));
    }
  }

  ghost predicate AllReady(entries: seq<HintEntry>) {
    forall i :: 0 <= i < |entries| ==> entries[i].ready
  }

  /** Some entry for the key is ready; some is not. */
  ghost predicate Holds(entries: seq<HintEntry>, key: HintKey, ready: bool) {
    exists i :: 0 <= i < |entries| && entries[i].Key() == key && entries[i].ready == ready
  }

  /** Only a hit on an entry whose configuration failed yields an instance that is not ready; only a failure makes one. */
  lemma ReadyAfterUse(entries: seq<HintEntry>, key: HintKey, ix: nat, isCurrent: bool, used: seq<HintEntry>, entry: HintEntry,
                      reconfigures: bool)
    requires IsLookup(entries, key, ix, isCurrent, used) && ix < |used|
    requires entry.ready == if isCurrent then used[ix].ready else reconfigures
    ensures isCurrent || reconfigures ==> if entry.ready then !Cached(entries, key) || Holds(entries, key, true) else Holds(entries, key, false)
    ensures AllReady(entries) ==> (AllReady(used[ix := entry]) <==> isCurrent || reconfigures)
  {
    var entries' := used[ix := entry];
    assert entries'[ix] == entry && forall i :: 0 <= i < |used| && i != ix ==> entries'[i] == used[i];
    assert forall i :: 0 <= i < |entries| ==> used[i] == entries[i];
  }

  class HintCache {
    var glyfEntries: seq<HintEntry>
    var cffEntries: seq<HintEntry>
    var serial: nat
    ghost var history: seq<Request>

    /** Each list holds the most recently requested keys of its format. */
    ghost predicate Valid()
      reads this
    {
      && serial == |history|
      && MostRecent(glyfEntries, history, Glyf) && MostRecent(cffEntries, history, Cff)
    }

    /** What holds in every run. */
    ghost predicate Tidied()
      reads this
    {
      serial == |history| && Tidy(glyfEntries, cffEntries, serial)
    }

    /** Every instance held was configured for its key. */
    ghost predicate Healthy()
      reads this
    {
      AllReady(glyfEntries) && AllReady(cffEntries)
    }

    lemma ValidIsTidied()
      requires Valid()
      ensures Tidied()
    {
      MostRecentIsTidy(glyfEntries, cffEntries, history);
    }

    constructor ()
      ensures Valid() && Healthy() && history == []
    {
      glyfEntries, cffEntries, serial, history := [], [], 0, [];
    }

    method Clear()
      modifies this
      ensures Valid() && Healthy() && history == []
    {
      glyfEntries, cffEntries, serial, history := [], [], 0, [];
    }

    ghost function Entries(format: Format): seq<HintEntry>
      reads this
    {
      if format.Glyf? then glyfEntries else cffEntries
    }

    /**
      * The instance for a key, in every run; `makes` and `reconfigures` say whether the font library succeeds where it
      * is asked to, `spoiled` is what an instance is for after it failed.
      */
    method Get(format: Option<Format>, key: HintKey, makes: bool, reconfigures: bool, spoiled: Instance)
      returns (r: Option<Instance>, ready: bool)
      requires Tidied() && serial < U64_MAX
      modifies this
      ensures Tidied()
      ensures r.None? <==> format.None? || !Succeeds(old(Entries(format.value)), key, makes, reconfigures)
      ensures r.Some? ==> r.value == key.instance
      ensures r.Some? ==> if ready then !Cached(old(Entries(format.value)), key) || Holds(old(Entries(format.value)), key, true)
                          else Holds(old(Entries(format.value)), key, false)
      ensures old(Healthy()) ==>
                (Healthy() <==> r.Some? || format.None? || Missing(old(Entries(format.value)), key, makes)) && (r.Some? ==> ready)
      ensures format.None? || Missing(old(Entries(format.value)), key, makes) ==> Unchanged(old(glyfEntries), old(cffEntries), old(history))
      ensures format.Some? && !Missing(old(Entries(format.value)), key, makes) ==>
                history == old(history) + [(format.value, if r.Some? then key else SpoiledKey(key, spoiled))]
      ensures old(Valid()) ==>
                (Valid() <==> r.Some? || format.None? || Missing(old(Entries(format.value)), key, makes)
                              || !HeldByNewer(old(Entries(format.value)), SpoiledKey(key, spoiled)))
    {
      if format.None? {
        return None, false;
      }
      ghost var glyf, cff, asked := glyfEntries, cffEntries, history;
      var entries := if format.value.Glyf? then glyfEntries else cffEntries;
      StampsBelow(glyf, cff, serial);
      var found, used := Find(entries, key, makes);
      if found.None? {
        return None, false;
      }
      var (ix, isCurrent) := found.value;
      LookupMeans(entries, key, ix, isCurrent, used, makes, reconfigures);
      ghost var entry := Stamped(used[ix], key, serial + 1, isCurrent, reconfigures, spoiled);
      r, ready := Use(format.value, key, ix, isCurrent, used, reconfigures, spoiled);
      ReadyAfterUse(entries, key, ix, isCurrent, used, entry, reconfigures);
      UseKeeps(glyf, cff, asked, format.value, key, ix, isCurrent, used, entry, r.Some?, glyfEntries, cffEntries, history);
    }

    /** Stamps the entry found, reconfigures it if need be and puts it back into its list. */
    method Use(format: Format, key: HintKey, ix: nat, isCurrent: bool, used: seq<HintEntry>, reconfigures: bool, spoiled: Instance)
      returns (r: Option<Instance>, ready: bool)
      requires ix < |used| && (isCurrent ==> used[ix].Key() == key)
      modifies this
      ensures var entry := Stamped(used[ix], key, old(serial) + 1, isCurrent, reconfigures, spoiled); var list := used[ix := entry];
              && r == (if isCurrent || reconfigures then Some(key.instance) else None) && ready == entry.ready
              && glyfEntries == (if format.Glyf? then list else old(glyfEntries))
              && cffEntries == (if format.Glyf? then old(cffEntries) else list)
              && history == old(history) + [(format, entry.Key())]
      ensures serial == old(serial) + 1
    {
      serial := serial + 1;
      var entry := Stamped(used[ix], key, serial, isCurrent, reconfigures, spoiled);
      history := history + [(format, entry.Key())];
      r, ready := if isCurrent || reconfigures then Some(entry.instance) else None, entry.ready;
      if format.Glyf? {
        glyfEntries := used[ix := entry];
      } else {
        cffEntries := used[ix := entry];
      }
    }

    ghost predicate Unchanged(glyf: seq<HintEntry>, cff: seq<HintEntry>, h: seq<Request>)
      reads this
    {
      glyfEntries == glyf && cffEntries == cff && history == h
    }

    /** The entry to use: a match, a new one while there is room, or the least recently used. */
    static method Find(entries: seq<HintEntry>, key: HintKey, makes: bool)
      returns (found: Option<(nat, bool)>, entries': seq<HintEntry>)
      requires forall i :: 0 <= i < |entries| ==> entries[i].serial < U64_MAX
      ensures found.Some? ==> found.value.0 < |entries'|
      ensures found.Some? ==> IsLookup(entries, key, found.value.0, found.value.1, entries')
      ensures found.None? <==> !makes && !Cached(entries, key) && |entries| < MAX_CACHED_HINT_INSTANCES
    {
      var foundSerial, foundIndex := U64_MAX, 0;
      for ix := 0 to |entries|
        invariant forall i :: 0 <= i < ix ==> entries[i].Key() != key && foundSerial <= entries[i].serial
        invariant ix > 0 ==> foundIndex < ix && entries[foundIndex].serial == foundSerial
        invariant ix == 0 ==> foundSerial == U64_MAX
      {
        var entry := entries[ix];
        if entry.fontId == key.fontId && entry.fontIndex == key.fontIndex
           && entry.instance.size == key.instance.size && entry.instance.coords == key.instance.coords {
          return Some((ix, true)), entries;
        }
        if entry.serial < foundSerial {
          foundSerial, foundIndex := entry.serial, ix;
        }
      }
      if |entries| < MAX_CACHED_HINT_INSTANCES {
        if !makes {
          return None, entries;
        }
        return Some((|entries|, true)), entries + [EntryFor(key, 0, true)];
      }
      return Some((foundIndex, false)), entries;
    }
  }
}
