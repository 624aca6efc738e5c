/** merry/abs/merry_dynl.c: the table of dynamic libraries. Opening a library is an oracle that answers
    with a handle or with nothing. */
module DynLoader {
  import opened Wrappers

  /** A handle of the host, and the library that it is for. */
  datatype Lib = Lib(path: string, id: nat)

  /** `free` is the field handle_open: an entry without an open library. */
  datatype Entry = Entry(name: string, lib: Option<Lib>, free: bool)

  datatype Table = Table(entries: seq<Entry>, closed: int)

  function FreeCount(es: seq<Entry>): (n: nat)
    ensures n <= |es|
  {
    if es == [] then 0 else FreeCount(es[..|es| - 1]) + if es[|es| - 1].free then 1 else 0
  }

  /** The first free entry from i on, or the value of the return that is said to be unreachable. */
  function FirstFree(es: seq<Entry>, i: nat): nat
    requires i <= |es|
    decreases |es| - i
  {
    if i == |es| then |es| + 1 else if es[i].free then i else FirstFree(es, i + 1)
  }

  /** The first entry of that name, free or not. */
  function Find(es: seq<Entry>, path: string, i: nat): nat
    requires i <= |es|
    decreases |es| - i
  {
    if i == |es| then |es| + 1 else if es[i].name == path then i else Find(es, path, i + 1)
  }

  /** The counter and the scan agree. */
  predicate Agrees(t: Table) {
    t.closed == FreeCount(t.entries)
  }

  // Counting and scanning

  lemma {:induction false} FreeCountZero(es: seq<Entry>)
    ensures FreeCount(es) > 0 <==> exists i :: 0 <= i < |es| && es[i].free
  {
    if es != [] {
      FreeCountZero(es[..|es| - 1]);
      if FreeCount(es[..|es| - 1]) > 0 {
        var i :| 0 <= i < |es| - 1 && es[..|es| - 1][i].free;
        assert es[i].free;
      }
    }
  }

  lemma {:induction false} FreeCountUpdate(es: seq<Entry>, i: nat, e: Entry)
    requires i < |es|
    ensures FreeCount(es[i := e]) ==
            FreeCount(es) - (if es[i].free then 1 else 0) + (if e.free then 1 else 0)
  {
    var n := |es| - 1;
    if i < n {
      FreeCountUpdate(es[..n], i, e);
      assert es[i := e][..n] == es[..n][i := e];
    } else {
      assert es[i := e][..n] == es[..n];
    }
  }

  lemma {:induction false} FirstFreeFound(es: seq<Entry>, i: nat)
    requires i <= |es|
    ensures (exists k :: i <= k < |es| && es[k].free) ==>
              i <= FirstFree(es, i) < |es| && es[FirstFree(es, i)].free
    ensures FirstFree(es, i) < |es| ==> forall k :: i <= k < FirstFree(es, i) ==> !es[k].free
    decreases |es| - i
  {
    if i < |es| && !es[i].free {
      FirstFreeFound(es, i + 1);
    }
  }

  lemma {:induction false} FindFound(es: seq<Entry>, path: string, i: nat)
    requires i <= |es|
    ensures Find(es, path, i) < |es| <==> exists k :: i <= k < |es| && es[k].name == path
    ensures Find(es, path, i) < |es| ==> i <= Find(es, path, i) && es[Find(es, path, i)].name == path
    ensures Find(es, path, i) < |es| ==> forall k :: i <= k < Find(es, path, i) ==> es[k].name != path
    decreases |es| - i
  {
    if i < |es| && es[i].name != path {
      FindFound(es, path, i + 1);
    }
  }

  /** While counter and scan agree, the scan that follows a positive counter finds a free entry. */
  lemma NeverUnreachable(t: Table)
    requires Agrees(t) && t.closed > 0
    ensures FirstFree(t.entries, 0) < |t.entries| && t.entries[FirstFree(t.entries, 0)].free
  {
    FreeCountZero(t.entries);
    FirstFreeFound(t.entries, 0);
  }

  // Operations

  function Init(names: seq<string>, libs: seq<Option<Lib>>): Table
    requires |names| == |libs|
  {
    Table(seq(|names|, i requires 0 <= i < |names| => Entry(names[i], libs[i], true)), |names|)
  }

  /** One more entry, with whatever name its memory holds. */
  function Added(t: Table, junk: string): Table {
    Table(t.entries + [Entry(junk, None, true)], t.closed + 1)
  }

  datatype Outcome = Outcome(ok: bool, handle: nat, table: Table)

  /** The table with room for one more library, and where. */
  function Grown(t: Table, junk: string): Table {
    if t.closed > 0 then t else Added(t, junk)
  }

  function Slot(t: Table): nat {
    if t.closed > 0 then FirstFree(t.entries, 0) else |t.entries|
  }

  lemma SlotIsFree(t: Table, junk: string)
    requires Agrees(t)
    ensures Agrees(Grown(t, junk)) && |t.entries| <= |Grown(t, junk).entries|
    ensures Slot(t) < |Grown(t, junk).entries| && Grown(t, junk).entries[Slot(t)].free
    ensures Grown(t, junk).entries[..|t.entries|] == t.entries
    ensures Slot(t) < |t.entries| ==> Grown(t, junk) == t && t.entries[Slot(t)].free
  {
    if t.closed > 0 {
      NeverUnreachable(t);
    }
  }

  function Load(t: Table, path: string, answer: Option<Lib>, junk: string): Outcome
    requires Agrees(t)
  {
    if Find(t.entries, path, 0) < |t.entries| then Outcome(true, Find(t.entries, path, 0), t)
    else
      SlotIsFree(t, junk);
      Opened(Grown(t, junk), Slot(t), path, answer)
  }

  function Opened(t: Table, handle: nat, path: string, answer: Option<Lib>): Outcome
    requires handle < |t.entries|
  {
    match answer
    case None => Outcome(false, handle, t.(entries := t.entries[handle := t.entries[handle].(lib := None)]))
    case Some(_) =>
      Outcome(true, handle, Table(t.entries[handle := Entry(path, answer, false)], t.closed - 1))
  }

  function Unload(t: Table, handle: nat): Table {
    if handle >= |t.entries| || t.entries[handle].free then t
    else Table(t.entries[handle := t.entries[handle].(free := true)], t.closed + 1)
  }

  // Runs

  datatype Event = Loads(path: string, answer: Option<Lib>, junk: string) | Unloads(handle: nat)

  /** The host answers with a handle for the library that was asked for. */
  predicate Honest(e: Event) {
    e.Loads? && e.answer.Some? ==> e.answer.value.path == e.path
  }

  function Next(t: Table, e: Event): Table
    requires Agrees(t)
  {
    match e
    case Loads(path, answer, junk) => Load(t, path, answer, junk).table
    case Unloads(handle) => Unload(t, handle)
  }

  lemma OpenedAgrees(t: Table, h: nat, path: string, answer: Option<Lib>)
    requires Agrees(t) && h < |t.entries| && t.entries[h].free
    ensures Agrees(Opened(t, h, path, answer).table)
  {
    FreeCountUpdate(t.entries, h, Opened(t, h, path, answer).table.entries[h]);
  }

  lemma NextAgrees(t: Table, e: Event)
    requires Agrees(t)
    ensures Agrees(Next(t, e)) && |t.entries| <= |Next(t, e).entries|
  {
    match e
    case Loads(path, answer, junk) =>
      SlotIsFree(t, junk);
      OpenedAgrees(Grown(t, junk), Slot(t), path, answer);
    case Unloads(h) =>
      if h < |t.entries| {
        FreeCountUpdate(t.entries, h, t.entries[h].(free := true));
      }
  }

  /** A run with what a reader of the table cannot see: which entries were ever loaded, and all handles
      that the host gave and took back. */
  datatype Track = Track(table: Table, ever: set<nat>, given: multiset<Lib>, returned: multiset<Lib>)

  function Start(names: seq<string>, libs: seq<Option<Lib>>): (s: Track)
    requires |names| == |libs|
    ensures Agrees(s.table)
  {
    AllFree(Init(names, libs).entries);
    Track(Init(names, libs), {}, multiset{}, multiset{})
  }

  function Follow(s: Track, e: Event): Track
    requires Agrees(s.table)
  {
    var t := Next(s.table, e);
    match e
    case Loads(path, answer, junk) =>
      if Find(s.table.entries, path, 0) < |s.table.entries| || answer.None? then s.(table := t)
      else Track(t, s.ever + {Load(s.table, path, answer, junk).handle}, s.given + multiset{answer.value}, s.returned)
    case Unloads(h) =>
      if h < |s.table.entries| && !s.table.entries[h].free && s.table.entries[h].lib.Some?
        then s.(table := t, returned := s.returned + multiset{s.table.entries[h].lib.value})
        else s.(table := t)
  }

  function Run(s: Track, events: seq<Event>): (r: Track)
    requires Agrees(s.table)
    ensures Agrees(r.table)
    decreases |events|
  {
    if events == [] then s
    else
      var last := |events| - 1;
      var r := Run(s, events[..last]);
      NextAgrees(r.table, events[last]);
      Follow(r, events[last])
  }

  /** How often open entries hold a handle. */
  function Holding(es: seq<Entry>, lib: Lib): nat {
    if es == [] then 0 else Holding(es[..|es| - 1], lib) + Holds(es[|es| - 1], lib)
  }

  function Holds(e: Entry, lib: Lib): nat {
    if !e.free && e.lib == Some(lib) then 1 else 0
  }

  lemma {:induction false} HoldingUpdate(es: seq<Entry>, i: nat, e: Entry, lib: Lib)
    requires i < |es|
    ensures Holding(es[i := e], lib) + Holds(es[i], lib) == Holding(es, lib) + Holds(e, lib)
  {
    var n := |es| - 1;
    if i < n {
      HoldingUpdate(es[..n], i, e, lib);
      assert es[i := e][..n] == es[..n][i := e];
    } else {
      assert es[i := e][..n] == es[..n];
    }
  }

  /** An open entry was loaded, under its name, and holds a handle for it; entries ever loaded have
      pairwise distinct names. */
  ghost predicate NamesKept(es: seq<Entry>, ever: set<nat>) {
    && (forall i :: i in ever ==> i < |es|)
    && (forall i :: 0 <= i < |es| && !es[i].free ==>
          i in ever && es[i].lib.Some? && es[i].lib.value.path == es[i].name)
    && (forall i, j :: i in ever && j in ever && i != j ==> i < |es| && j < |es| && es[i].name != es[j].name)
  }

  /** Every handle the host gave has been taken back or is held by an open entry. */
  ghost predicate HandlesKept(s: Track) {
    forall lib :: s.given[lib] == s.returned[lib] + Holding(s.table.entries, lib)
  }

  lemma GrownKeepsNames(t: Table, junk: string, ever: set<nat>)
    requires NamesKept(t.entries, ever)
    ensures NamesKept(Grown(t, junk).entries, ever)
  {
  }

  lemma OpenedKeepsNames(es: seq<Entry>, ever: set<nat>, h: nat, path: string, lib: Lib)
    requires NamesKept(es, ever) && h < |es| && lib.path == path
    requires forall i :: 0 <= i < |es| && i != h ==> es[i].name != path || i !in ever
    ensures NamesKept(es[h := Entry(path, Some(lib), false)], ever + {h})
  {
  }

  lemma FailedKeepsNames(es: seq<Entry>, ever: set<nat>, h: nat)
    requires NamesKept(es, ever) && h < |es| && es[h].free
    ensures NamesKept(es[h := es[h].(lib := None)], ever)
  {
  }

  /** A name that was not found before is on none of the other entries ever loaded. */
  lemma NewName(t: Table, ever: set<nat>, path: string, junk: string)
    requires NamesKept(t.entries, ever) && Find(t.entries, path, 0) >= |t.entries|
    ensures forall i :: 0 <= i < |Grown(t, junk).entries| ==> Grown(t, junk).entries[i].name != path || i !in ever
  {
    FindFound(t.entries, path, 0);
    forall i | 0 <= i < |Grown(t, junk).entries| && i in ever
      ensures Grown(t, junk).entries[i].name != path
    {
      assert Grown(t, junk).entries[i] == t.entries[i];
    }
  }

  lemma LoadKeepsNames(s: Track, path: string, answer: Option<Lib>, junk: string)
    requires Agrees(s.table) && NamesKept(s.table.entries, s.ever) && Honest(Loads(path, answer, junk))
    ensures var r := Follow(s, Loads(path, answer, junk)); NamesKept(r.table.entries, r.ever)
  {
    var t := s.table;
    if Find(t.entries, path, 0) >= |t.entries| {
      SlotIsFree(t, junk);
      GrownKeepsNames(t, junk, s.ever);
      if answer.Some? {
        NewName(t, s.ever, path, junk);
        OpenedKeepsNames(Grown(t, junk).entries, s.ever, Slot(t), path, answer.value);
      } else {
        FailedKeepsNames(Grown(t, junk).entries, s.ever, Slot(t));
      }
    }
  }

  lemma UnloadKeepsNames(s: Track, h: nat)
    requires Agrees(s.table) && NamesKept(s.table.entries, s.ever)
    ensures var r := Follow(s, Unloads(h)); NamesKept(r.table.entries, r.ever)
  {
  }

  lemma GrownHolding(t: Table, junk: string, lib: Lib)
    ensures Holding(Grown(t, junk).entries, lib) == Holding(t.entries, lib)
  {
    if t.closed <= 0 {
      assert Added(t, junk).entries[..|t.entries|] == t.entries;
    }
  }

  lemma OpenedHolding(t: Table, h: nat, path: string, answer: Option<Lib>, lib: Lib)
    requires h < |t.entries| && t.entries[h].free
    ensures Holding(Opened(t, h, path, answer).table.entries, lib) ==
            Holding(t.entries, lib) + if answer == Some(lib) then 1 else 0
  {
    HoldingUpdate(t.entries, h, Opened(t, h, path, answer).table.entries[h], lib);
  }

  lemma OneMore(m: multiset<Lib>, x: Lib, lib: Lib)
    ensures (m + multiset{x})[lib] == m[lib] + if Some(x) == Some(lib) then 1 else 0
  {
  }

  /** The handles a load gets from the host. */
  function Given(t: Table, path: string, answer: Option<Lib>, lib: Lib): nat {
    if Find(t.entries, path, 0) >= |t.entries| && answer == Some(lib) then 1 else 0
  }

  lemma LoadHolding(t: Table, path: string, answer: Option<Lib>, junk: string, lib: Lib)
    requires Agrees(t)
    ensures Holding(Load(t, path, answer, junk).table.entries, lib) ==
            Holding(t.entries, lib) + Given(t, path, answer, lib)
  {
    if Find(t.entries, path, 0) >= |t.entries| {
      SlotIsFree(t, junk);
      GrownHolding(t, junk, lib);
      OpenedHolding(Grown(t, junk), Slot(t), path, answer, lib);
    }
  }

  function Answered(answer: Option<Lib>): seq<Lib> {
    if answer.Some? then [answer.value] else []
  }

  lemma LoadBalances(t: Table, path: string, answer: Option<Lib>, junk: string, opens: seq<Lib>)
    requires Agrees(t)
    ensures var got := if Find(t.entries, path, 0) < |t.entries| then [] else Answered(answer);
            forall lib :: multiset(opens + got)[lib] + Holding(t.entries, lib) ==
                          multiset(opens)[lib] + Holding(Load(t, path, answer, junk).table.entries, lib)
  {
    forall lib ensures Holding(Load(t, path, answer, junk).table.entries, lib) ==
                       Holding(t.entries, lib) + Given(t, path, answer, lib)
    {
      LoadHolding(t, path, answer, junk, lib);
    }
  }

  lemma LoadKeepsHandle(s: Track, path: string, answer: Option<Lib>, junk: string, lib: Lib)
    requires Agrees(s.table) && s.given[lib] == s.returned[lib] + Holding(s.table.entries, lib)
    ensures var r := Follow(s, Loads(path, answer, junk));
            r.given[lib] == r.returned[lib] + Holding(r.table.entries, lib)
  {
    LoadHolding(s.table, path, answer, junk, lib);
    if answer.Some? {
      OneMore(s.given, answer.value, lib);
    }
  }

  lemma UnloadKeepsHandle(s: Track, h: nat, lib: Lib)
    requires Agrees(s.table) && NamesKept(s.table.entries, s.ever)
    requires s.given[lib] == s.returned[lib] + Holding(s.table.entries, lib)
    ensures var r := Follow(s, Unloads(h));
            r.given[lib] == r.returned[lib] + Holding(r.table.entries, lib)
  {
    if h < |s.table.entries| && !s.table.entries[h].free {
      HoldingUpdate(s.table.entries, h, s.table.entries[h].(free := true), lib);
      OneMore(s.returned, s.table.entries[h].lib.value, lib);
    }
  }

  lemma FollowKeeps(s: Track, e: Event)
    requires Agrees(s.table) && NamesKept(s.table.entries, s.ever) && HandlesKept(s) && Honest(e)
    ensures var r := Follow(s, e); NamesKept(r.table.entries, r.ever) && HandlesKept(r)
  {
    var r := Follow(s, e);
    match e
    case Loads(path, answer, junk) =>
      LoadKeepsNames(s, path, answer, junk);
      forall lib ensures r.given[lib] == r.returned[lib] + Holding(r.table.entries, lib) {
        LoadKeepsHandle(s, path, answer, junk, lib);
      }
    case Unloads(h) =>
      UnloadKeepsNames(s, h);
      forall lib ensures r.given[lib] == r.returned[lib] + Holding(r.table.entries, lib) {
        UnloadKeepsHandle(s, h, lib);
      }
  }

  lemma {:induction false} AllFree(es: seq<Entry>)
    requires forall i :: 0 <= i < |es| ==> es[i].free
    ensures FreeCount(es) == |es| && forall lib :: Holding(es, lib) == 0
  {
    if es != [] {
      AllFree(es[..|es| - 1]);
    }
  }

  lemma StartKept(names: seq<string>, libs: seq<Option<Lib>>)
    requires |names| == |libs|
    ensures NamesKept(Start(names, libs).table.entries, Start(names, libs).ever) && HandlesKept(Start(names, libs))
  {
    AllFree(Init(names, libs).entries);
  }

  lemma {:induction false} RunKept(s: Track, events: seq<Event>)
    requires Agrees(s.table) && NamesKept(s.table.entries, s.ever) && HandlesKept(s)
    requires forall i :: 0 <= i < |events| ==> Honest(events[i])
    ensures var r := Run(s, events); NamesKept(r.table.entries, r.ever) && HandlesKept(r)
    decreases |events|
  {
    if events != [] {
      var last := |events| - 1;
      RunKept(s, events[..last]);
      FollowKeeps(Run(s, events[..last]), events[last]);
    }
  }

  /** Over any loads and unloads from any initial memory, with any answers of the host: the counter is
      the number of free entries, every returned handle is in range, entries ever loaded have pairwise
      distinct names, and no handle of the host is lost or taken back twice. */
  lemma TableStaysSound(names: seq<string>, libs: seq<Option<Lib>>, events: seq<Event>, path: string,
                        answer: Option<Lib>, junk: string)
    requires |names| == |libs|
    requires forall i :: 0 <= i < |events| ==> Honest(events[i])
    ensures var s := Run(Start(names, libs), events);
            && s.table.closed == FreeCount(s.table.entries)
            && NamesKept(s.table.entries, s.ever) && HandlesKept(s)
            && (s.table.closed > 0 ==> FirstFree(s.table.entries, 0) < |s.table.entries|)
            && Load(s.table, path, answer, junk).handle < |Load(s.table, path, answer, junk).table.entries|
  {
    StartKept(names, libs);
    RunKept(Start(names, libs), events);
    var s := Run(Start(names, libs), events);
    SlotIsFree(s.table, junk);
  }

  // What a successful load promises

  /** The handle that a successful load returns is open exactly if the first entry of that name, when
      there is one, is open. */
  lemma LoadedIsOpenIff(t: Table, path: string, answer: Option<Lib>, junk: string)
    requires Agrees(t)
    ensures var o := Load(t, path, answer, junk);
            && (o.ok <==> Find(t.entries, path, 0) < |t.entries| || answer.Some?)
            && (o.ok ==> o.handle < |o.table.entries| && o.table.entries[o.handle].name == path)
            && (o.ok ==> (!o.table.entries[o.handle].free <==>
                            (Find(t.entries, path, 0) < |t.entries| ==> !t.entries[Find(t.entries, path, 0)].free)))
  {
    FindFound(t.entries, path, 0);
    SlotIsFree(t, junk);
  }

  /** After a successful load the returned entry is the first of its name. */
  lemma LoadedIsFirst(t: Table, path: string, answer: Option<Lib>, junk: string)
    requires Agrees(t) && Load(t, path, answer, junk).ok
    ensures var o := Load(t, path, answer, junk);
            Find(o.table.entries, path, 0) == o.handle < |o.table.entries|
  {
    FindFound(t.entries, path, 0);
    SlotIsFree(t, junk);
    var o := Load(t, path, answer, junk);
    if Find(t.entries, path, 0) >= |t.entries| {
      var es, h := Grown(t, junk).entries, Slot(t);
      assert h <= |t.entries|;
      assert o.table.entries == es[h := Entry(path, answer, false)];
      forall k | 0 <= k < h ensures o.table.entries[k].name != path {
        assert o.table.entries[k] == t.entries[k];
      }
      assert o.table.entries[h].name == path;
      FindFound(o.table.entries, path, 0);
    }
  }

  lemma {:induction false} FindByName(es: seq<Entry>, fs: seq<Entry>, path: string, i: nat)
    requires i <= |es| == |fs| && forall k :: 0 <= k < |es| ==> es[k].name == fs[k].name
    ensures Find(es, path, i) == Find(fs, path, i)
    decreases |es| - i
  {
    if i < |es| {
      FindByName(es, fs, path, i + 1);
    }
  }

  /** A library that was unloaded, as its entry h remembers it: free, and the first of its name. */
  predicate Retired(t: Table, h: nat, path: string) {
    && h < |t.entries| && t.entries[h].free && t.entries[h].name == path
    && Find(t.entries, path, 0) == h
  }

  /** The load of another library that takes entry h: its name is not found, h is the entry used, and the
      host opens it. */
  predicate Takes(t: Table, e: Event, h: nat) {
    && e.Loads? && e.answer.Some?
    && Find(t.entries, e.path, 0) >= |t.entries| && Slot(t) == h
  }

  lemma UnloadRetires(t: Table, path: string, answer: Option<Lib>, junk: string)
    requires Agrees(t) && Load(t, path, answer, junk).ok
    ensures var o := Load(t, path, answer, junk);
            Agrees(o.table) && Agrees(Unload(o.table, o.handle)) && Retired(Unload(o.table, o.handle), o.handle, path)
  {
    var o := Load(t, path, answer, junk);
    NextAgrees(t, Loads(path, answer, junk));
    NextAgrees(o.table, Unloads(o.handle));
    LoadedIsFirst(t, path, answer, junk);
    LoadedIsOpenIff(t, path, answer, junk);
    FindByName(o.table.entries, Unload(o.table, o.handle).entries, path, 0);
  }

  /** While its entry is retired, loading the library reports success with that closed entry and asks the
      host nothing. */
  lemma RetiredLoadStaysClosed(t: Table, h: nat, path: string, answer: Option<Lib>, junk: string)
    requires Agrees(t) && Retired(t, h, path)
    ensures Load(t, path, answer, junk) == Outcome(true, h, t) && t.entries[h].free
  {
  }

  lemma {:induction false} FindPrefix(es: seq<Entry>, fs: seq<Entry>, path: string, h: nat, i: nat)
    requires i <= h < |es| && h < |fs|
    requires forall k :: 0 <= k < h ==> es[k].name != path && fs[k].name != path
    requires es[h].name == path && fs[h].name == path
    ensures Find(fs, path, i) == h
    decreases h - i
  {
    if i < h {
      FindPrefix(es, fs, path, h, i + 1);
    }
  }

  /** The load that takes the entry is exactly the step that ends this. */
  lemma StepRetired(t: Table, e: Event, h: nat, path: string)
    requires Agrees(t) && Retired(t, h, path)
    ensures Retired(Next(t, e), h, path) <==> !Takes(t, e, h)
    ensures Takes(t, e, h) ==> !Next(t, e).entries[h].free && Next(t, e).entries[h].name == e.path != path
  {
    var u := Next(t, e);
    NextAgrees(t, e);
    FindFound(t.entries, path, 0);
    if e.Loads? {
      SlotIsFree(t, e.junk);
      FindFound(t.entries, e.path, 0);
    }
    if !Takes(t, e, h) {
      forall k | 0 <= k < h ensures u.entries[k].name != path {
        assert u.entries[k].name == t.entries[k].name || (e.Loads? && e.path != path);
      }
      FindPrefix(t.entries, u.entries, path, h, 0);
    }
  }

  /** No load on the way takes the entry. */
  predicate NeverTaken(s: Track, events: seq<Event>, h: nat)
    requires Agrees(s.table)
    decreases |events|
  {
    if events == [] then true
    else
      var n := |events| - 1;
      NeverTaken(s, events[..n], h) && !Takes(Run(s, events[..n]).table, events[n], h)
  }

  /** The entry is retired in every state on the way. */
  predicate StaysRetired(s: Track, events: seq<Event>, h: nat, path: string)
    requires Agrees(s.table)
    decreases |events|
  {
    && Retired(Run(s, events).table, h, path)
    && (events == [] || StaysRetired(s, events[..|events| - 1], h, path))
  }

  lemma {:induction false} RetiredUntilTaken(s: Track, events: seq<Event>, h: nat, path: string)
    requires Agrees(s.table) && Retired(s.table, h, path)
    ensures StaysRetired(s, events, h, path) <==> NeverTaken(s, events, h)
    decreases |events|
  {
    if events != [] {
      var n := |events| - 1;
      RetiredUntilTaken(s, events[..n], h, path);
      if NeverTaken(s, events[..n], h) {
        StepRetired(Run(s, events[..n]).table, events[n], h, path);
      }
    }
  }

  lemma RunOne(s: Track, events: seq<Event>, e: Event)
    requires Agrees(s.table)
    ensures Run(s, events + [e]).table == Next(Run(s, events).table, e)
  {
    assert (events + [e])[..|events|] == events;
  }

  lemma RunTwo(s: Track, e1: Event, e2: Event)
    requires Agrees(s.table)
    ensures Agrees(Next(s.table, e1)) && Run(s, [e1, e2]).table == Next(Next(s.table, e1), e2)
  {
    NextAgrees(s.table, e1);
    RunOne(s, [], e1);
    RunOne(s, [e1], e2);
    assert [] + [e1] == [e1] && [e1] + [e2] == [e1, e2];
  }

  /** A library that was loaded and unloaded, and whatever loads and unloads follow: its entry stays closed
      under its name exactly until a load takes it, and until then loading it again reports success with
      that closed entry, whatever the host would answer. */
  lemma ReloadStaysClosed(s: Track, path: string, a1: Option<Lib>, j1: string, events: seq<Event>,
                          a2: Option<Lib>, j2: string)
    requires Agrees(s.table) && Load(s.table, path, a1, j1).ok
    ensures var h := Load(s.table, path, a1, j1).handle;
            var unloaded := Run(s, [Loads(path, a1, j1), Unloads(h)]);
            var t := Run(unloaded, events).table;
            && (StaysRetired(unloaded, events, h, path) <==> NeverTaken(unloaded, events, h))
            && (NeverTaken(unloaded, events, h) ==>
                  Load(t, path, a2, j2) == Outcome(true, h, t) && h < |t.entries| && t.entries[h].free)
  {
    var h := Load(s.table, path, a1, j1).handle;
    RunTwo(s, Loads(path, a1, j1), Unloads(h));
    UnloadRetires(s.table, path, a1, j1);
    var unloaded := Run(s, [Loads(path, a1, j1), Unloads(h)]);
    RetiredUntilTaken(unloaded, events, h, path);
    if NeverTaken(unloaded, events, h) {
      RetiredLoadStaysClosed(Run(unloaded, events).table, h, path, a2, j2);
    }
  }

  /** A load of a name that no entry has, into the first free entry. */
  lemma LoadIntoFree(t: Table, h: nat, path: string, lib: Lib, junk: string)
    requires Agrees(t) && h < |t.entries| && t.entries[h].free
    requires forall k :: 0 <= k < h ==> !t.entries[k].free
    requires forall k :: 0 <= k < |t.entries| ==> t.entries[k].name != path
    ensures Takes(t, Loads(path, Some(lib), junk), h)
    ensures var o := Load(t, path, Some(lib), junk);
            o.ok && o.handle == h && o.table.entries == t.entries[h := Entry(path, Some(lib), false)]
  {
    FindFound(t.entries, path, 0);
    FreeCountZero(t.entries);
    FirstFreeFound(t.entries, 0);
  }

  /** Once another library has taken the entry, the first one is opened anew: from the table of two
      entries that the OS starts with, load A, unload it, load B, load A. */
  lemma ReopenedAfterTaken(names: seq<string>, libs: seq<Option<Lib>>, a: string, b: string,
                           first: Lib, second: Lib, third: Lib, junk: string)
    requires |names| == |libs| == 2 && a != b && a !in names && b !in names
    ensures var s := Run(Start(names, libs), [Loads(a, Some(first), junk), Unloads(0)]);
            && Retired(s.table, 0, a) && Takes(s.table, Loads(b, Some(second), junk), 0)
            && var t := Next(s.table, Loads(b, Some(second), junk));
               Agrees(t) && var o := Load(t, a, Some(third), junk);
               o.ok && o.handle == 1 && o.table.entries[1] == Entry(a, Some(third), false)
  {
    var s := Start(names, libs);
    assert names[0] != a && names[1] != a && names[0] != b && names[1] != b;
    LoadIntoFree(s.table, 0, a, first, junk);
    RunTwo(s, Loads(a, Some(first), junk), Unloads(0));
    UnloadRetires(s.table, a, Some(first), junk);
    var unloaded := Run(s, [Loads(a, Some(first), junk), Unloads(0)]).table;
    LoadIntoFree(unloaded, 0, b, second, junk);
    NextAgrees(unloaded, Loads(b, Some(second), junk));
    LoadIntoFree(Next(unloaded, Loads(b, Some(second), junk)), 1, a, third, junk);
  }

  // The loader itself

  class MerryLoader {
    var entries: seq<Entry>
    var entryCount: nat
    var closedEntryCount: int
    /** The handles that the host gave, by dlopen, and those that were given back to it, by dlclose. */
    var opens: seq<Lib>
    var closes: seq<Lib>

    predicate Valid()
      reads this
    {
      entryCount == |entries| && Agrees(View())
    }

    function View(): Table
      reads this
    {
      Table(entries, closedEntryCount)
    }

    /** Every handle that the host gave was given back to it or is held by an open entry. */
    ghost predicate Balanced()
      reads this
    {
      forall lib :: multiset(opens)[lib] == multiset(closes)[lib] + Holding(entries, lib)
    }

    /** merry_loader_init: names and handles are whatever the memory holds. */
    constructor (initialEntryCount: nat, names: seq<string>, libs: seq<Option<Lib>>)
      requires |names| == |libs| == initialEntryCount
      ensures Valid() && Balanced() && View() == Init(names, libs) && opens == closes == []
    {
      closedEntryCount, entryCount := initialEntryCount, initialEntryCount;
      entries, opens, closes := [], [], [];
      new;
      for i := 0 to initialEntryCount
        invariant entries == Init(names, libs).entries[..i] && opens == closes == []
        invariant closedEntryCount == initialEntryCount == entryCount
      {
        entries := entries + [Entry(names[i], libs[i], true)];
      }
      AllFree(entries);
    }

    method FindFreeHandle() returns (handle: nat)
      requires Valid()
      ensures handle == FirstFree(entries, 0)
    {
      for i := 0 to entryCount
        invariant FirstFree(entries, 0) == FirstFree(entries, i)
      {
        if entries[i].free {
          return i;
        }
      }
      handle := entryCount + 1;
    }

    method AddEntry(junk: string)
      requires Valid()
      modifies this`entries, this`entryCount, this`closedEntryCount
      ensures Valid() && View() == Added(old(View()), junk)
    {
      ghost var before := entries;
      entries := entries + [Entry(junk, None, true)];
      assert entries[..|before|] == before;
      entryCount := entryCount + 1;
      closedEntryCount := closedEntryCount + 1;
    }

    method CheckEntry(path: string) returns (handle: nat)
      requires Valid()
      ensures handle == Find(entries, path, 0)
    {
      for i := 0 to entryCount
        invariant Find(entries, path, 0) == Find(entries, path, i)
      {
        if entries[i].name == path {
          return i;
        }
      }
      handle := entryCount + 1;
    }

    /** dlopen. */
    method Dlopen(answer: Option<Lib>)
      modifies this`opens
      ensures opens == old(opens) + Answered(answer)
    {
      if answer.Some? {
        opens := opens + [answer.value];
      }
    }

    /** The end of merry_loader_loadLib, with a free entry at hand. */
    method OpenEntry(handle: nat, path: string, answer: Option<Lib>) returns (ok: bool)
      requires Valid() && handle < |entries| && entries[handle].free
      modifies this`entries, this`closedEntryCount, this`opens
      ensures Valid() && Outcome(ok, handle, View()) == Opened(old(View()), handle, path, answer)
      ensures opens == old(opens) + Answered(answer)
    {
      ghost var next := Opened(View(), handle, path, answer);
      OpenedAgrees(View(), handle, path, answer);
      Dlopen(answer);
      entries := entries[handle := entries[handle].(lib := answer)];
      if answer.None? {
        return false;
      }
      entries := entries[handle := entries[handle].(free := false)];
      closedEntryCount := closedEntryCount - 1;
      entries := entries[handle := entries[handle].(name := path)];
      assert View() == next.table;
      ok := true;
    }

    /** A free entry: one that the table has, or a new one. */
    method MakeRoom(junk: string) returns (handle: nat)
      requires Valid()
      modifies this`entries, this`entryCount, this`closedEntryCount
      ensures Valid() && View() == Grown(old(View()), junk) && handle == Slot(old(View()))
      ensures handle < |entries| && entries[handle].free
    {
      SlotIsFree(View(), junk);
      if closedEntryCount > 0 {
        handle := FindFreeHandle();
      } else {
        AddEntry(junk);
        handle := entryCount - 1;
      }
    }

    method FindOrOpen(path: string, answer: Option<Lib>, junk: string) returns (ok: bool, handle: nat)
      requires Valid()
      modifies this`entries, this`entryCount, this`closedEntryCount, this`opens
      ensures Valid() && Outcome(ok, handle, View()) == Load(old(View()), path, answer, junk)
      ensures opens == old(opens) + if Find(old(entries), path, 0) < |old(entries)| then [] else Answered(answer)
    {
      handle := CheckEntry(path);
      if handle < entryCount {
        return true, handle;
      }
      handle := MakeRoom(junk);
      ok := OpenEntry(handle, path, answer);
    }

    /** `answer` is what dlopen returns, should it be called: only for a name that no entry has. A handle
        it gives ends up in an entry. */
    method LoadLib(path: string, answer: Option<Lib>, junk: string) returns (ok: bool, handle: nat)
      requires Valid()
      modifies this`entries, this`entryCount, this`closedEntryCount, this`opens
      ensures Valid()
      ensures Outcome(ok, handle, View()) == Load(old(View()), path, answer, junk)
      ensures (exists k :: 0 <= k < |old(entries)| && old(entries)[k].name == path) ==> opens == old(opens)
      ensures forall lib :: multiset(opens)[lib] + Holding(old(entries), lib) ==
                            multiset(old(opens))[lib] + Holding(entries, lib)
      ensures old(Balanced()) ==> Balanced()
    {
      FindFound(entries, path, 0);
      LoadBalances(View(), path, answer, junk, opens);
      ok, handle := FindOrOpen(path, answer, junk);
    }

    method UnloadLib(handle: nat)
      requires Valid()
      modifies this`entries, this`closedEntryCount, this`closes
      ensures Valid() && View() == Unload(old(View()), handle)
      ensures forall lib :: multiset(closes)[lib] + Holding(entries, lib) ==
                            multiset(old(closes))[lib] + Holding(old(entries), lib)
      ensures old(Balanced()) ==> Balanced()
    {
      NextAgrees(View(), Unloads(handle));
      ghost var was := View();
      forall lib | handle < |was.entries| && !was.entries[handle].free
        ensures Holding(Unload(was, handle).entries, lib) + Holds(was.entries[handle], lib) == Holding(was.entries, lib)
      {
        HoldingUpdate(was.entries, handle, was.entries[handle].(free := true), lib);
      }
      if handle >= entryCount || entries[handle].free {
        return;
      }
      Dlclose(handle);
      entries := entries[handle := entries[handle].(free := true)];
      closedEntryCount := closedEntryCount + 1;
      assert View() == Unload(was, handle);
    }

    method Dlclose(handle: nat)
      requires handle < |entries|
      modifies this`closes
      ensures closes == old(closes) + if entries[handle].lib.Some? then [entries[handle].lib.value] else []
    {
      if entries[handle].lib.Some? {
        closes := closes + [entries[handle].lib.value];
      }
    }

    /** merry_loader_close: every handle still open is given back, once; so at the end the host has got back
        exactly what it gave. */
    method Close()
      requires Valid()
      modifies this`closes
      ensures forall lib :: multiset(closes)[lib] == multiset(old(closes))[lib] + Holding(entries, lib)
      ensures old(Balanced()) ==> multiset(opens) == multiset(closes)
    {
      if closedEntryCount != entryCount {
        for i := 0 to entryCount
          invariant forall lib :: multiset(closes)[lib] == multiset(old(closes))[lib] + Holding(entries[..i], lib)
        {
          assert entries[..i + 1][..i] == entries[..i];
          if !entries[i].free {
            Dlclose(i);
          }
        }
        assert entries[..entryCount] == entries;
      } else {
        CountFull(entries);
        AllFree(entries);
      }
    }
  }

  lemma {:induction false} CountFull(es: seq<Entry>)
    requires FreeCount(es) == |es|
    ensures forall i :: 0 <= i < |es| ==> es[i].free
  {
    if es != [] {
      CountFull(es[..|es| - 1]);
    }
  }
}
