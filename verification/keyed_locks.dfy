/**
 The keyed mutexes of the engine and of the daemon service: a registry, itself
 under a mutex, of entries that count their users and are dropped when idle.
 Each step below is one access to shared memory, so any interleaving is a run.
 */
module KeyedLocks {
  import opened Results
  import opened Counting

  type Thread = nat
  type Key = string

  /** The address of a lock entry. */
  type Entry = nat

  const WORD: nat := 0x1_0000_0000_0000_0000

  /** Where a thread stands. */
  datatype Place =
    | Idle
    | Entering(key: Key)
    | Looking(key: Key)
    | Missing(key: Key)
    | Found(key: Key, entry: Entry)
    | Counted(key: Key, entry: Entry)
    | Waiting(key: Key, entry: Entry)
    | Holding(key: Key, entry: Entry)
    | Released(key: Key, entry: Entry)
    | Leaving(key: Key, entry: Entry)
    | Checking(key: Key, entry: Entry)
    | Left(key: Key)
  {
    /** The thread owns the registry mutex. */
    predicate OwnsRegistry() {
      Looking? || Missing? || Found? || Counted? || Leaving? || Checking? || Left?
    }

    /** The thread has been counted in its entry and not yet been taken off. */
    predicate Counts() {
      Counted? || Waiting? || Holding? || Released? || Leaving?
    }
  }

  /** A lock entry: its reference count is one machine word. */
  datatype Cell = Cell(refs: nat, holder: Option<Thread>)

  datatype State = State(
    registry: Option<Thread>,
    locks: map<Key, Entry>,
    cells: map<Entry, Cell>,
    places: map<Thread, Place>)

  datatype Event = Event(thread: Thread, key: Key, address: Entry)

  function Move(s: State, t: Thread, p: Place): State {
    s.(places := s.places[t := p])
  }

  /** One step of thread t. */
  predicate Step(s: State, e: Event, s': State) {
    var t := e.thread;
    && t in s.places
    && match s.places[t]
       case Idle => s' == Move(s, t, Entering(e.key))
       case Entering(k) => s.registry == None && s' == Move(s, t, Looking(k)).(registry := Some(t))
       case Looking(k) => s' == Move(s, t, if k in s.locks then Found(k, s.locks[k]) else Missing(k))
       case Missing(k) =>
         && e.address !in s.cells
         && s' == Move(s, t, Found(k, e.address)).(locks := s.locks[k := e.address], cells := s.cells[e.address := Cell(0, None)])
       case Found(k, n) =>
         && n in s.cells
         && s' == Move(s, t, Counted(k, n)).(cells := s.cells[n := s.cells[n].(refs := (s.cells[n].refs + 1) % WORD)])
       case Counted(k, n) => s' == Move(s, t, Waiting(k, n)).(registry := None)
       case Waiting(k, n) =>
         && n in s.cells && s.cells[n].holder == None
         && s' == Move(s, t, Holding(k, n)).(cells := s.cells[n := s.cells[n].(holder := Some(t))])
       case Holding(k, n) =>
         && n in s.cells
         && s' == Move(s, t, Released(k, n)).(cells := s.cells[n := s.cells[n].(holder := None)])
       case Released(k, n) => s.registry == None && s' == Move(s, t, Leaving(k, n)).(registry := Some(t))
       case Leaving(k, n) =>
         && n in s.cells
         && s' == Move(s, t, Checking(k, n)).(cells := s.cells[n := s.cells[n].(refs := (s.cells[n].refs + WORD - 1) % WORD)])
       case Checking(k, n) =>
         && n in s.cells
         && s' == if s.cells[n].refs == 0 && k in s.locks && s.locks[k] == n
                  then Move(s, t, Left(k)).(locks := s.locks - {k})
                  else Move(s, t, Left(k))
       case Left(k) => s' == Move(s, t, Idle).(registry := None)
  }

  /** Any number of idle threads, as long as a machine word can count them. */
  predicate Init(s: State) {
    && s.registry == None && s.locks == map[] && s.cells == map[]
    && |s.places| < WORD && forall t :: t in s.places ==> s.places[t] == Idle
  }

  /** The threads counted in an entry. */
  function Users(s: State, n: Entry): set<Thread> {
    set t | t in s.places && s.places[t].Counts() && s.places[t].entry == n
  }

  /** The threads at work on a key: they wait for it, hold it or are giving it back. */
  function UsersOfKey(s: State, k: Key): set<Thread> {
    set t | t in s.places && s.places[t].Counts() && s.places[t].key == k
  }

  predicate PlaceInv(s: State, t: Thread)
    requires t in s.places
  {
    var p := s.places[t];
    && (p.OwnsRegistry() <==> s.registry == Some(t))
    && (p.Found? || p.Counts() || p.Checking? ==> p.entry in s.cells)
    && (p.Found? || p.Counts() || p.Checking? ==> p.key in s.locks && s.locks[p.key] == p.entry)
    && (p.Missing? ==> p.key !in s.locks)
    && (p.Holding? ==> s.cells[p.entry].holder == Some(t))
  }

  predicate CellInv(s: State, n: Entry)
    requires n in s.cells
  {
    && s.cells[n].refs == |Users(s, n)|
    && (s.cells[n].holder.Some? ==>
          var h := s.cells[n].holder.value; h in s.places && s.places[h].Holding? && s.places[h].entry == n)
  }

  /** An entry nobody counts in is registered only while its one user is between its two registry sections. */
  predicate KeyInv(s: State, k: Key)
    requires k in s.locks
  {
    && s.locks[k] in s.cells
    && (forall j :: j in s.locks && s.locks[j] == s.locks[k] ==> j == k)
    && (s.cells[s.locks[k]].refs > 0
        || (s.registry.Some? && s.registry.value in s.places
            && (s.places[s.registry.value].Found? || s.places[s.registry.value].Checking?)
            && s.places[s.registry.value].key == k))
  }

  predicate Inv(s: State) {
    && |s.places| < WORD
    && (s.registry.Some? ==> s.registry.value in s.places)
    && (forall t :: t in s.places ==> PlaceInv(s, t))
    && (forall n :: n in s.cells ==> CellInv(s, n))
    && (forall k :: k in s.locks ==> KeyInv(s, k))
  }

  lemma UsersBounded(s: State, n: Entry)
    requires |s.places| < WORD
    ensures |Users(s, n)| < WORD
  {
    assert Users(s, n) <= s.places.Keys;
    SubsetSize(Users(s, n), s.places.Keys);
  }

  lemma UsedIsPositive(s: State, t: Thread, n: Entry)
    requires t in s.places && s.places[t].Counts() && s.places[t].entry == n
    ensures |Users(s, n)| > 0
  {
    assert t in Users(s, n);
  }

  /** How one thread's move changes the users of an entry. */
  lemma UsersAfterMove(s: State, s': State, t: Thread, n: Entry)
    requires t in s.places && t in s'.places && s'.places == s.places[t := s'.places[t]]
    ensures var before, after := s.places[t], s'.places[t];
            |Users(s', n)| == |Users(s, n)|
                              + (if after.Counts() && after.entry == n then 1 else 0)
                              - (if before.Counts() && before.entry == n then 1 else 0)
  {
    assert Users(s', n) - {t} == Users(s, n) - {t};
    assert |Users(s, n) - {t}| == |Users(s, n)| - if t in Users(s, n) then 1 else 0;
    assert |Users(s', n) - {t}| == |Users(s', n)| - if t in Users(s', n) then 1 else 0;
  }

  /** A step moves one thread and leaves every other where it was. */
  lemma OnlyOneMoves(s: State, e: Event, s': State)
    requires Step(s, e, s')
    ensures e.thread in s'.places && s'.places == s.places[e.thread := s'.places[e.thread]]
    ensures s'.places.Keys == s.places.Keys
  {
  }

  /** Two threads never own the registry mutex together. */
  lemma OneOwner(s: State, t: Thread, u: Thread)
    requires Inv(s) && t in s.places && u in s.places
    requires s.places[t].OwnsRegistry() && s.places[u].OwnsRegistry()
    ensures t == u
  {
    hide Users, CellInv, KeyInv;
    assert PlaceInv(s, t) && PlaceInv(s, u);
  }

  lemma MoverKept(s: State, e: Event, s': State)
    requires Inv(s) && Step(s, e, s')
    ensures e.thread in s'.places && PlaceInv(s', e.thread)
  {
    hide Users, CellInv;
    assert PlaceInv(s, e.thread);
    var p := s.places[e.thread];
    if p.Looking? && p.key in s.locks {
      assert KeyInv(s, p.key);
    }
  }

  /** An entry whose count is zero has no other user, so dropping it takes no thread's entry away. */
  lemma DropIsSafe(s: State, t: Thread, u: Thread)
    requires Inv(s) && t in s.places && u in s.places && t != u
    requires s.places[t].Checking? && s.cells[s.places[t].entry].refs == 0
    requires s.places[u].Found? || s.places[u].Counts() || s.places[u].Checking?
    ensures s.places[u].key != s.places[t].key
  {
    hide Users;
    assert PlaceInv(s, t) && PlaceInv(s, u) && CellInv(s, s.places[t].entry);
    if s.places[u].Counts() && s.places[u].entry == s.places[t].entry {
      UsedIsPositive(s, u, s.places[t].entry);
    } else if s.places[u].OwnsRegistry() {
      OneOwner(s, t, u);
    }
  }

  /** The entry a thread stands at survives every step of another thread. */
  lemma OtherKept(s: State, e: Event, s': State, t: Thread)
    requires Inv(s) && Step(s, e, s') && t in s'.places && t != e.thread
    ensures PlaceInv(s', t)
  {
    hide Users, CellInv, KeyInv;
    OnlyOneMoves(s, e, s');
    assert PlaceInv(s, t) && PlaceInv(s, e.thread);
    var p, q := s.places[e.thread], s.places[t];
    if p.Checking? && (q.Found? || q.Counts() || q.Checking?) && s.cells[p.entry].refs == 0 {
      DropIsSafe(s, e.thread, t);
    }
    if p.OwnsRegistry() && q.OwnsRegistry() {
      OneOwner(s, t, e.thread);
    }
  }

  lemma CellKept(s: State, e: Event, s': State, n: Entry)
    requires Inv(s) && Step(s, e, s') && n in s'.cells
    ensures CellInv(s', n)
  {
    hide Users, KeyInv;
    OnlyOneMoves(s, e, s');
    UsersAfterMove(s, s', e.thread, n);
    UsersBounded(s, n);
    PlacesBounded(s, s');
    UsersBounded(s', n);
    assert PlaceInv(s, e.thread);
    if n in s.cells {
      assert CellInv(s, n);
    } else {
      NewEntryIsUnused(s, n);
    }
  }

  lemma PlacesBounded(s: State, s': State)
    requires s'.places.Keys == s.places.Keys && |s.places| < WORD
    ensures |s'.places| < WORD
  {
    assert |s'.places| == |s'.places.Keys| && |s.places| == |s.places.Keys|;
  }

  lemma NewEntryIsUnused(s: State, n: Entry)
    requires Inv(s) && n !in s.cells
    ensures |Users(s, n)| == 0
  {
    forall t | t in s.places
      ensures t !in Users(s, n)
    {
      assert PlaceInv(s, t);
    }
    assert Users(s, n) == {};
  }

  lemma KeyKept(s: State, e: Event, s': State, k: Key)
    requires Inv(s) && Step(s, e, s') && k in s'.locks
    ensures KeyInv(s', k)
  {
    hide Users;
    OnlyOneMoves(s, e, s');
    assert PlaceInv(s, e.thread);
    var p := s.places[e.thread];
    if k in s.locks {
      assert KeyInv(s, k);
    }
    if p.Found? || p.Leaving? {
      assert CellInv(s, p.entry);
      UsersBounded(s, p.entry);
      UsersBounded(s', p.entry);
      assert KeyInv(s, p.key);
    }
    if p.Found? {
      CellKept(s, e, s', p.entry);
      UsedIsPositive(s', e.thread, p.entry);
    }
  }

  /** Every step of every thread keeps the invariant. */
  lemma InvKept(s: State, e: Event, s': State)
    requires Inv(s) && Step(s, e, s')
    ensures Inv(s')
  {
    hide PlaceInv, CellInv, KeyInv, Users;
    OnlyOneMoves(s, e, s');
    PlacesBounded(s, s');
    forall t | t in s'.places ensures PlaceInv(s', t) { if t == e.thread { MoverKept(s, e, s'); } else { OtherKept(s, e, s', t); } }
    forall n | n in s'.cells ensures CellInv(s', n) { CellKept(s, e, s', n); }
    forall k | k in s'.locks ensures KeyInv(s', k) { KeyKept(s, e, s', k); }
  }

  ghost predicate IsRun(run: seq<State>, events: seq<Event>) {
    && |run| == |events| + 1
    && Init(run[0])
    && forall i :: 0 <= i < |events| ==> Step(run[i], events[i], run[i + 1])
  }

  lemma {:induction false} RunKeepsInv(run: seq<State>, events: seq<Event>, i: nat)
    requires IsRun(run, events) && i < |run|
    ensures Inv(run[i])
  {
    hide Step;
    if i > 0 {
      RunKeepsInv(run, events, i - 1);
      InvKept(run[i - 1], events[i - 1], run[i]);
    }
  }

  /** Mutual exclusion per key, at every moment of every run of any number of threads. */
  lemma MutualExclusion(run: seq<State>, events: seq<Event>, i: nat, t: Thread, u: Thread)
    requires IsRun(run, events) && i < |run|
    requires t in run[i].places && u in run[i].places
    requires run[i].places[t].Holding? && run[i].places[u].Holding? && run[i].places[t].key == run[i].places[u].key
    ensures t == u
  {
    hide Step, Users, KeyInv, CellInv;
    RunKeepsInv(run, events, i);
    assert PlaceInv(run[i], t) && PlaceInv(run[i], u);
  }

  /** All threads at work on one key use one entry, so replacing an entry never splits its users. */
  lemma OneEntryPerKey(run: seq<State>, events: seq<Event>, i: nat, k: Key)
    requires IsRun(run, events) && i < |run|
    ensures UsersOfKey(run[i], k) == if k in run[i].locks then Users(run[i], run[i].locks[k]) else {}
  {
    hide Step, CellInv;
    RunKeepsInv(run, events, i);
    var s := run[i];
    forall t | t in s.places && s.places[t].Counts()
      ensures s.places[t].key == k <==> k in s.locks && s.places[t].entry == s.locks[k]
    {
      assert PlaceInv(s, t);
      if k in s.locks {
        assert KeyInv(s, k);
      }
    }
  }

  /** Whenever the registry mutex is free, a key is registered exactly while some thread is at work on it, and its entry counts those threads. */
  lemma RegisteredIffUsed(run: seq<State>, events: seq<Event>, i: nat, k: Key)
    requires IsRun(run, events) && i < |run|
    requires run[i].registry == None
    ensures k in run[i].locks <==> UsersOfKey(run[i], k) != {}
    ensures k in run[i].locks ==> run[i].locks[k] in run[i].cells
                                  && run[i].cells[run[i].locks[k]].refs == |UsersOfKey(run[i], k)|
  {
    hide Step;
    RunKeepsInv(run, events, i);
    OneEntryPerKey(run, events, i, k);
    if k in run[i].locks {
      assert KeyInv(run[i], k) && CellInv(run[i], run[i].locks[k]);
    }
  }

  /** When every thread is idle again, nothing is left in the registry. */
  lemma IdleLeavesNothing(run: seq<State>, events: seq<Event>, i: nat)
    requires IsRun(run, events) && i < |run|
    requires forall t :: t in run[i].places ==> run[i].places[t] == Idle
    ensures run[i].locks == map[]
  {
    hide Step;
    RunKeepsInv(run, events, i);
    assert run[i].registry.Some? ==> PlaceInv(run[i], run[i].registry.value);
    forall k | k in run[i].locks
      ensures false
    {
      RegisteredIffUsed(run, events, i, k);
    }
  }

  /** The comparison that guards a deletion never finds another entry: a count of zero already rules that out. */
  lemma EntryNeverReplaced(run: seq<State>, events: seq<Event>, i: nat, t: Thread)
    requires IsRun(run, events) && i < |run|
    requires t in run[i].places && run[i].places[t].Checking?
    ensures run[i].places[t].key in run[i].locks && run[i].locks[run[i].places[t].key] == run[i].places[t].entry
  {
    hide Step, Users, KeyInv, CellInv;
    RunKeepsInv(run, events, i);
    assert PlaceInv(run[i], t);
  }

  /** There is always an address that was never used: one above them all. */
  lemma FreshAddress(used: set<Entry>) returns (n: Entry)
    ensures forall x :: x in used ==> x < n
    decreases used
  {
    n := 0;
    if x :| x in used {
      var above := FreshAddress(used - {x});
      n := if above > x then above else x + 1;
      assert used == (used - {x}) + {x};
    }
  }

  /** A thread waits only for the registry mutex or for the lock of its key. */
  predicate MustWait(s: State, t: Thread)
    requires t in s.places
  {
    match s.places[t]
    case Entering(_) => s.registry.Some?
    case Released(_, _) => s.registry.Some?
    case Waiting(_, n) => n in s.cells && s.cells[n].holder.Some?
    case _ => false
  }

  lemma CanMove(s: State, t: Thread) returns (e: Event, s': State)
    requires Inv(s) && t in s.places && !MustWait(s, t)
    ensures e.thread == t && Step(s, e, s')
  {
    hide Users, CellInv, KeyInv;
    assert PlaceInv(s, t);
    var address := FreshAddress(s.cells.Keys);
    e := Event(t, "", address);
    match s.places[t]
    case Idle => s' := Move(s, t, Entering(e.key));
    case Entering(k) => s' := Move(s, t, Looking(k)).(registry := Some(t));
    case Looking(k) => s' := Move(s, t, if k in s.locks then Found(k, s.locks[k]) else Missing(k));
    case Missing(k) =>
      s' := Move(s, t, Found(k, address)).(locks := s.locks[k := address], cells := s.cells[address := Cell(0, None)]);
    case Found(k, n) => s' := Move(s, t, Counted(k, n)).(cells := s.cells[n := s.cells[n].(refs := (s.cells[n].refs + 1) % WORD)]);
    case Counted(k, n) => s' := Move(s, t, Waiting(k, n)).(registry := None);
    case Waiting(k, n) => s' := Move(s, t, Holding(k, n)).(cells := s.cells[n := s.cells[n].(holder := Some(t))]);
    case Holding(k, n) => s' := Move(s, t, Released(k, n)).(cells := s.cells[n := s.cells[n].(holder := None)]);
    case Released(k, n) => s' := Move(s, t, Leaving(k, n)).(registry := Some(t));
    case Leaving(k, n) =>
      s' := Move(s, t, Checking(k, n)).(cells := s.cells[n := s.cells[n].(refs := (s.cells[n].refs + WORD - 1) % WORD)]);
    case Checking(k, n) =>
      s' := Move(s, t, Left(k));
      s' := if s.cells[n].refs == 0 && k in s.locks && s.locks[k] == n then s'.(locks := s.locks - {k}) else s';
    case Left(k) => s' := Move(s, t, Idle).(registry := None);
  }

  /**
   No deadlock: a thread that has to wait waits for one that can move, the
   owner of the registry mutex or the holder of the very key it wants; every
   other thread can move itself.
   */
  lemma NeverStuck(run: seq<State>, events: seq<Event>, i: nat, t: Thread) returns (u: Thread, e: Event, s': State)
    requires IsRun(run, events) && i < |run| && t in run[i].places
    ensures u in run[i].places && e.thread == u && Step(run[i], e, s')
    ensures !MustWait(run[i], t) ==> u == t
    ensures MustWait(run[i], t) && !run[i].places[t].Waiting? ==> run[i].registry == Some(u)
    ensures MustWait(run[i], t) && run[i].places[t].Waiting? ==> run[i].places[u].Holding? && run[i].places[u].key == run[i].places[t].key
  {
    hide Step, Users;
    RunKeepsInv(run, events, i);
    var s := run[i];
    assert PlaceInv(s, t);
    u := t;
    if MustWait(s, t) {
      if s.places[t].Waiting? {
        var n := s.places[t].entry;
        assert CellInv(s, n);
        u := s.cells[n].holder.value;
        assert PlaceInv(s, u) && KeyInv(s, s.places[t].key);
      } else {
        u := s.registry.value;
        assert PlaceInv(s, u);
      }
    }
    e, s' := CanMove(s, u);
  }
}
