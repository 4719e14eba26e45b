// The compile cache of build.rs: parallel workers, crashes between any two file steps, and whatever earlier builds
// left behind. A build that completes links exactly what a clean sequential build would.
module AirCache {
  import opened Common

  datatype Std = Metal40 | Metal32

  // Everything an entry's key covers; keys do not collide, so a key is what it hashes. Whether a source is a
  // TensorOps one (no fallback) follows from its path, which the key covers.
  datatype Key = Key(content: nat, werror: bool, tensorOps: bool)

  // What the compiler does with a source under a dialect: it reads nothing the key does not cover.
  datatype Compiled = Ok(air: nat, warnings: nat) | Err(diag: nat)

  type Compiler = (Key, Std) -> Compiled

  // The three files of one stem: the `.air`, its key with the dialect it was compiled under, its warnings.
  datatype Entry = Entry(air: Option<nat>, key: Option<(Key, Std)>, warn: Option<nat>)

  const EMPTY: Entry := Entry(None, None, None)

  type Files = map<nat, Entry>

  function Get(files: Files, stem: nat): Entry { if stem in files then files[stem] else EMPTY }

  // One source of a build: its stem, and its key.
  datatype Source = Source(stem: nat, key: Key)

  // ---------- a clean build, one source at a time ----------

  // The fallback exists only for sources that are not TensorOps, and only outside a strict build.
  predicate MayFallBack(k: Key) { !k.werror && !k.tensorOps }

  function CleanAir(c: Compiler, k: Key): Option<nat> {
    match c(k, Metal40)
    case Ok(air, _) => Some(air)
    case Err(_) =>
      if !MayFallBack(k) then None
      else
        match c(k, Metal32)
        case Ok(air, _) => Some(air)
        case Err(_) => None
  }

  function CleanBuild(c: Compiler, sources: seq<Source>): Option<seq<nat>> {
    if sources == [] then Some([])
    else
      match CleanBuild(c, sources[..|sources| - 1])
      case None => None
      case Some(airs) =>
        match CleanAir(c, sources[|sources| - 1].key)
        case None => None
        case Some(air) => Some(airs + [air])
  }

  // ---------- the build as steps ----------

  // Where a worker is in its loop, with the source it has claimed.
  datatype Worker =
    | Fetch
    | Lookup(i: nat)
    | DropKey(i: nat)
    | DropWarn(i: nat)
    | Compile(i: nat)
    | Compiling(i: nat)
    | PutWarn(i: nat, warnings: nat)
    | PutKey(i: nat, warnings: nat)
    | Finished

  datatype Air = Ready(std: Std, warnings: nat) | Metal4Failed(diag: nat)

  datatype Main =
    | Waiting                     // in the worker scope
    | Take(j: nat)                // about to take outcome j
    | Fallback(j: nat)            // about to start the metal3.2 compile of j
    | FallingBack(j: nat)
    | FallbackWarn(j: nat, warnings: nat)
    | FallbackKey(j: nat, warnings: nat)
    | Linked(airs: seq<Option<nat>>)
    | Panicked(at: nat)

  datatype Build = Build(sources: seq<Source>, next: nat, workers: seq<Worker>, outcomes: seq<Option<Air>>, claims: seq<nat>, main: Main)

  datatype State = Resting(files: Files) | Building(files: Files, b: Build)

  function Holds(w: Worker): Option<nat> { if w.Fetch? || w.Finished? then None else Some(w.i) }

  ghost predicate DistinctStems(sources: seq<Source>) {
    forall i, j :: 0 <= i < j < |sources| ==> sources[i].stem != sources[j].stem
  }

  // A new build starts from whatever is on disk, with any edits since, any flags, and at least one worker.
  ghost predicate Start(s: State, s': State) {
    s.Resting? && s'.Building? && s'.files == s.files && DistinctStems(s'.b.sources)
    && s'.b == Build(s'.b.sources, 0, seq(|s'.b.workers|, _ => Fetch), seq(|s'.b.sources|, _ => None),
                     seq(|s'.b.sources|, _ => 0), Waiting)
    && |s'.b.workers| > 0
  }

  // The process is gone: nothing but the files remains.
  ghost predicate Crash(s: State, s': State) { s.Building? && s' == Resting(s.files) }

  // `reusable`: the recorded key matches and the `.air` is there.
  function Reusable(e: Entry, k: Key): Option<(Std, nat)> {
    if e.key.Some? && e.key.value.0 == k && e.air.Some? then
      Some((e.key.value.1, if e.warn.Some? then e.warn.value else 0))
    else None
  }

  // One step of worker w. Files change only at the stem of the source it holds.
  ghost predicate WorkerStep(c: Compiler, s: State, s': State, w: nat) {
    s.Building? && s'.Building? && s.b.main.Waiting? && w < |s.b.workers|
    && var b, b', me := s.b, s'.b, s.b.workers[w];
    |b.outcomes| == |b.sources| && |b.claims| == |b.sources|
    && (Holds(me).Some? ==> Holds(me).value < |b.sources|)
    && match me
       case Fetch =>
         s'.files == s.files
         && (if b.next < |b.sources| then
               b' == b.(next := b.next + 1, workers := b.workers[w := Lookup(b.next)], claims := b.claims[b.next := b.claims[b.next] + 1])
             else b' == b.(next := b.next + 1, workers := b.workers[w := Finished]))
       case Lookup(i) =>
         var r := Reusable(Get(s.files, b.sources[i].stem), b.sources[i].key);
         s'.files == s.files
         && b' == if r.Some? then b.(workers := b.workers[w := Fetch], outcomes := b.outcomes[i := Some(Ready(r.value.0, r.value.1))])
                  else b.(workers := b.workers[w := DropKey(i)])
       case DropKey(i) => Moves(s, s', w, i, DropWarn(i), Get(s.files, b.sources[i].stem).(key := None))
       case DropWarn(i) => Moves(s, s', w, i, Compile(i), Get(s.files, b.sources[i].stem).(warn := None))
       case Compile(i) => exists partial :: Moves(s, s', w, i, Compiling(i), Get(s.files, b.sources[i].stem).(air := partial))
       case Compiling(i) =>
         var e := Get(s.files, b.sources[i].stem);
         (match c(b.sources[i].key, Metal40)
          case Ok(air, warnings) => Moves(s, s', w, i, PutWarn(i, warnings), e.(air := Some(air)))
          case Err(diag) =>
            exists left :: s'.files == s.files[b.sources[i].stem := e.(air := left)]
                           && b' == b.(workers := b.workers[w := Fetch], outcomes := b.outcomes[i := Some(Metal4Failed(diag))]))
       case PutWarn(i, warnings) =>
         exists wrote :: WroteWarn(wrote, warnings) && Moves(s, s', w, i, PutKey(i, warnings), Get(s.files, b.sources[i].stem).(warn := wrote))
       case PutKey(i, warnings) =>
         var e := Get(s.files, b.sources[i].stem);
         exists wrote :: WroteKey(wrote, b.sources[i].key, Metal40)
                         && s'.files == s.files[b.sources[i].stem := e.(key := wrote)]
                         && b' == b.(workers := b.workers[w := Fetch], outcomes := b.outcomes[i := Some(Ready(Metal40, warnings))])
       case Finished => false
  }

  // Either file may turn out unwritable.
  ghost predicate WroteWarn(wrote: Option<nat>, warnings: nat) { wrote == None || wrote == Some(warnings) }

  ghost predicate WroteKey(wrote: Option<(Key, Std)>, k: Key, std: Std) { wrote == None || wrote == Some((k, std)) }

  ghost predicate Moves(s: State, s': State, w: nat, i: nat, to: Worker, e: Entry)
    requires s.Building? && s'.Building? && w < |s.b.workers| && i < |s.b.sources|
  {
    s'.files == s.files[s.b.sources[i].stem := e] && s'.b == s.b.(workers := s.b.workers[w := to])
  }

  // The main thread joins the workers, then takes the outcomes in source order.
  ghost predicate MainStep(c: Compiler, s: State, s': State) {
    s.Building? && s'.Building? && |s.b.outcomes| == |s.b.sources|
    && var b, b' := s.b, s'.b;
    match b.main
    case Waiting => (forall w :: 0 <= w < |b.workers| ==> b.workers[w].Finished?) && s'.files == s.files && b' == b.(main := Take(0))
    case Take(j) =>
      s'.files == s.files
      && b' == b.(main := if j >= |b.sources| then Linked(Read(s.files, b.sources))
                          else if b.outcomes[j].None? then Panicked(j)
                          else if b.outcomes[j].value.Ready? then Take(j + 1)
                          else if MayFallBack(b.sources[j].key) then Fallback(j)
                          else Panicked(j))
    case Fallback(j) =>
      j < |b.sources|
      && exists partial :: s'.files == s.files[b.sources[j].stem := Get(s.files, b.sources[j].stem).(air := partial)]
                           && b' == b.(main := FallingBack(j))
    case FallingBack(j) =>
      j < |b.sources|
      && var e := Get(s.files, b.sources[j].stem);
         (match c(b.sources[j].key, Metal32)
          case Ok(air, warnings) =>
            s'.files == s.files[b.sources[j].stem := e.(air := Some(air))] && b' == b.(main := FallbackWarn(j, warnings))
          case Err(_) => s'.files == s.files && b' == b.(main := Panicked(j)))
    case FallbackWarn(j, warnings) =>
      j < |b.sources|
      && exists wrote :: WroteWarn(wrote, warnings)
                         && s'.files == s.files[b.sources[j].stem := Get(s.files, b.sources[j].stem).(warn := wrote)]
                         && b' == b.(main := FallbackKey(j, warnings))
    case FallbackKey(j, warnings) =>
      j < |b.sources|
      && exists wrote :: WroteKey(wrote, b.sources[j].key, Metal32)
                         && s'.files == s.files[b.sources[j].stem := Get(s.files, b.sources[j].stem).(key := wrote)]
                         && b' == b.(main := Take(j + 1))
    case Linked(_) => false
    case Panicked(_) => false
  }

  // What the link reads: the paths' contents, in source order.
  function Read(files: Files, sources: seq<Source>): seq<Option<nat>> {
    seq(|sources|, i requires 0 <= i < |sources| => Get(files, sources[i].stem).air)
  }

  ghost predicate Next(c: Compiler, s: State, s': State) {
    Start(s, s') || Crash(s, s') || (exists w :: WorkerStep(c, s, s', w)) || MainStep(c, s, s')
  }

  // A history: from an empty output directory, any steps.
  ghost predicate History(c: Compiler, h: seq<State>) {
    h != [] && h[0] == Resting(map[]) && forall i :: 0 <= i < |h| - 1 ==> Next(c, h[i], h[i + 1])
  }

  // ---------- what every step keeps ----------

  // A recorded key tells the truth: the `.air` beside it is that key's compile under that dialect, a fallback only
  // where one is allowed and metal4.0 failed, and the warnings, when there are any, are that compile's.
  ghost predicate Truthful(c: Compiler, e: Entry) {
    e.key.Some? ==>
      var (k, std) := e.key.value;
      c(k, std).Ok? && e.air == Some(c(k, std).air) && (e.warn.Some? ==> e.warn == Some(c(k, std).warnings))
      && (std == Metal32 ==> MayFallBack(k) && c(k, Metal40).Err?)
  }

  ghost predicate AllTruthful(c: Compiler, files: Files) { forall stem :: stem in files ==> Truthful(c, files[stem]) }

  // What the files say of a source when a worker stands there.
  ghost predicate WorkerOk(c: Compiler, files: Files, sources: seq<Source>, w: Worker) {
    Holds(w).Some? ==>
      w.i < |sources|
      && var e, k := Get(files, sources[w.i].stem), sources[w.i].key;
      match w
      case Lookup(_) => true
      case DropKey(_) => true
      case DropWarn(_) => e.key.None?
      case Compile(_) => e.key.None? && e.warn.None?
      case Compiling(_) => e.key.None? && e.warn.None?
      case PutWarn(_, warnings) => e.key.None? && e.warn.None? && e.air.Some? && c(k, Metal40) == Ok(e.air.value, warnings)
      case PutKey(_, warnings) =>
        e.key.None? && (e.warn == None || e.warn == Some(warnings)) && e.air.Some? && c(k, Metal40) == Ok(e.air.value, warnings)
  }

  // What an outcome says of its source's `.air`.
  ghost predicate OutcomeOk(c: Compiler, files: Files, src: Source, o: Air) {
    match o
    case Ready(std, warnings) => Get(files, src.stem).air == CleanAir(c, src.key) && CleanAir(c, src.key).Some?
    case Metal4Failed(_) => c(src.key, Metal40).Err? && Get(files, src.stem).key.None? && Get(files, src.stem).warn.None?
  }

  ghost predicate Claims(b: Build) {
    |b.outcomes| == |b.sources| && |b.claims| == |b.sources| && DistinctStems(b.sources)
    && (forall i :: 0 <= i < |b.sources| ==> b.claims[i] == if i < b.next then 1 else 0)
    && (forall w :: 0 <= w < |b.workers| && Holds(b.workers[w]).Some? ==>
          b.workers[w].i < b.next && b.workers[w].i < |b.sources| && b.outcomes[b.workers[w].i].None?)
    && (forall w, v :: 0 <= w < v < |b.workers| && Holds(b.workers[w]).Some? ==> Holds(b.workers[w]) != Holds(b.workers[v]))
    && (forall i :: 0 <= i < |b.sources| && i >= b.next ==> b.outcomes[i].None?)
    && (forall i :: 0 <= i < |b.sources| && i < b.next && b.outcomes[i].None? ==> Held(b, i))
    && (forall w :: 0 <= w < |b.workers| && b.workers[w].Finished? ==> b.next >= |b.sources|)
  }

  ghost predicate Held(b: Build, i: nat) { exists w :: 0 <= w < |b.workers| && Holds(b.workers[w]) == Some(i) }

  // The `.air` of a source that needs nothing more.
  ghost predicate Done(c: Compiler, files: Files, src: Source) {
    CleanAir(c, src.key).Some? && Get(files, src.stem).air == CleanAir(c, src.key)
  }

  // The source the main thread is at.
  function At(b: Build): nat {
    match b.main
    case Waiting => 0
    case Take(j) => j
    case Fallback(j) => j
    case FallingBack(j) => j
    case FallbackWarn(j, _) => j
    case FallbackKey(j, _) => j
    case Linked(_) => |b.sources|
    case Panicked(j) => j
  }

  // The source being compiled again.
  ghost predicate FallbackOk(c: Compiler, files: Files, b: Build) {
    At(b) < |b.sources|
    && var e, k := Get(files, b.sources[At(b)].stem), b.sources[At(b)].key;
       MayFallBack(k) && c(k, Metal40).Err? && e.key.None?
       && match b.main
          case FallbackWarn(_, warnings) => e.warn.None? && e.air.Some? && c(k, Metal32) == Ok(e.air.value, warnings)
          case FallbackKey(_, warnings) =>
            (e.warn == None || e.warn == Some(warnings)) && e.air.Some? && c(k, Metal32) == Ok(e.air.value, warnings)
          case _ => e.warn.None?
  }

  predicate InFallback(m: Main) { m.Fallback? || m.FallingBack? || m.FallbackWarn? || m.FallbackKey? }

  ghost predicate SourceOk(c: Compiler, files: Files, b: Build, i: nat)
    requires i < |b.sources| && i < |b.outcomes|
  {
    if b.main.Waiting? then b.outcomes[i].Some? ==> OutcomeOk(c, files, b.sources[i], b.outcomes[i].value)
    else if i < At(b) then Done(c, files, b.sources[i])
    else if i > At(b) || b.main.Take? then b.outcomes[i].Some? && OutcomeOk(c, files, b.sources[i], b.outcomes[i].value)
    else true
  }

  ghost predicate MainOk(c: Compiler, files: Files, b: Build) {
    (!b.main.Waiting? ==> forall w :: 0 <= w < |b.workers| ==> b.workers[w].Finished?)
    && (InFallback(b.main) ==> FallbackOk(c, files, b))
    && (b.main.Linked? ==> b.main.airs == Read(files, b.sources))
    && (b.main.Panicked? ==> b.main.at < |b.sources| && CleanAir(c, b.sources[b.main.at].key).None?)
    && (b.main.Take? ==> b.main.j <= |b.sources|)
  }

  ghost predicate Inv(c: Compiler, s: State) {
    AllTruthful(c, s.files)
    && (s.Building? ==>
          Claims(s.b) && |s.b.workers| > 0
          && (forall w :: 0 <= w < |s.b.workers| ==> WorkerOk(c, s.files, s.b.sources, s.b.workers[w]))
          && (forall i :: 0 <= i < |s.b.sources| ==> SourceOk(c, s.files, s.b, i))
          && MainOk(c, s.files, s.b))
  }

  // ---------- one step at a time ----------

  lemma {:induction false} StartKeeps(c: Compiler, s: State, s': State)
    requires Inv(c, s) && Start(s, s')
    ensures Inv(c, s')
  {
  }

  // Writing one source's entry changes no other source's.
  lemma {:induction false} OtherEntries(sources: seq<Source>, files: Files, i: nat, e: Entry, j: nat)
    requires DistinctStems(sources) && i < |sources| && j < |sources| && i != j
    ensures Get(files[sources[i].stem := e], sources[j].stem) == Get(files, sources[j].stem)
  {
    if i < j {
      assert sources[i].stem != sources[j].stem;
    } else {
      assert sources[j].stem != sources[i].stem;
    }
  }

  // Only worker w, holding source i, moved on, and only i's entry changed.
  lemma {:induction false} MoveKeeps(c: Compiler, s: State, s': State, w: nat, i: nat, to: Worker, e: Entry)
    requires Inv(c, s) && s.Building? && s'.Building? && s.b.main.Waiting? && w < |s.b.workers|
    requires Holds(s.b.workers[w]) == Some(i) && Holds(to) == Some(i) && i < |s.b.sources| && Moves(s, s', w, i, to, e)
    requires Truthful(c, e) && WorkerOk(c, s'.files, s.b.sources, to)
    ensures Inv(c, s')
  {
    var b, b' := s.b, s'.b;
    forall j | 0 <= j < |b'.sources| && j < b'.next && b'.outcomes[j].None? ensures Held(b', j) {
      StillHeld(b, b', w, j);
    }
    forall v | 0 <= v < |b'.workers| ensures WorkerOk(c, s'.files, b'.sources, b'.workers[v]) {
      if v != w && Holds(b.workers[v]).Some? {
        OtherHolds(b, w, v);
        OtherEntries(b.sources, s.files, i, e, b.workers[v].i);
      }
    }
    forall j | 0 <= j < |b'.sources| ensures SourceOk(c, s'.files, b', j) {
      assert SourceOk(c, s.files, b, j);
      if j != i {
        OtherEntries(b.sources, s.files, i, e, j);
      }
    }
  }

  lemma {:induction false} OtherHolds(b: Build, w: nat, v: nat)
    requires Claims(b) && w < |b.workers| && v < |b.workers| && w != v && Holds(b.workers[v]).Some?
    ensures Holds(b.workers[v]) != Holds(b.workers[w])
  {
    if w < v {
      if Holds(b.workers[w]).Some? {
        assert Holds(b.workers[w]) != Holds(b.workers[v]);
      }
    } else {
      assert Holds(b.workers[v]) != Holds(b.workers[w]);
    }
  }

  lemma {:induction false} StillHeld(b: Build, b': Build, w: nat, j: nat)
    requires w < |b.workers| == |b'.workers| && Held(b, j) && Holds(b'.workers[w]) == Holds(b.workers[w])
    requires forall v :: 0 <= v < |b.workers| && v != w ==> b'.workers[v] == b.workers[v]
    ensures Held(b', j)
  {
    var v :| 0 <= v < |b.workers| && Holds(b.workers[v]) == Some(j);
    assert Holds(b'.workers[v]) == Some(j);
  }

  // Worker w is done with source i: its outcome is recorded, and the worker fetches again.
  ghost predicate Delivers(s: State, s': State, w: nat, i: nat, o: Air, e: Entry)
    requires s.Building? && s'.Building? && w < |s.b.workers| && i < |s.b.sources| && i < |s.b.outcomes|
  {
    (s'.files == s.files[s.b.sources[i].stem := e] || (s'.files == s.files && e == Get(s.files, s.b.sources[i].stem)))
    && s'.b == s.b.(workers := s.b.workers[w := Fetch], outcomes := s.b.outcomes[i := Some(o)])
  }

  lemma {:induction false} DeliverKeeps(c: Compiler, s: State, s': State, w: nat, i: nat, o: Air, e: Entry)
    requires Inv(c, s) && s.Building? && s'.Building? && s.b.main.Waiting? && w < |s.b.workers|
    requires Holds(s.b.workers[w]) == Some(i) && i < |s.b.sources| && Delivers(s, s', w, i, o, e)
    requires Truthful(c, e) && OutcomeOk(c, s'.files, s.b.sources[i], o)
    ensures Inv(c, s')
  {
    var b, b' := s.b, s'.b;
    forall j | 0 <= j < |b'.sources| && j < b'.next && b'.outcomes[j].None? ensures Held(b', j) {
      var v :| 0 <= v < |b.workers| && Holds(b.workers[v]) == Some(j);
      assert v != w;
      assert Holds(b'.workers[v]) == Some(j);
    }
    forall v | 0 <= v < |b'.workers| && Holds(b'.workers[v]).Some? ensures b'.outcomes[b'.workers[v].i].None? {
      OtherHolds(b, w, v);
    }
    forall v | 0 <= v < |b'.workers| ensures WorkerOk(c, s'.files, b'.sources, b'.workers[v]) {
      if v != w && Holds(b.workers[v]).Some? {
        OtherHolds(b, w, v);
        OtherEntries(b.sources, s.files, i, e, b.workers[v].i);
      }
    }
    forall j | 0 <= j < |b'.sources| ensures SourceOk(c, s'.files, b', j) {
      assert SourceOk(c, s.files, b, j);
      if j != i {
        OtherEntries(b.sources, s.files, i, e, j);
      }
    }
  }

  // A reused `.air` is the one a clean build makes, dialect and all.
  lemma {:induction false} ReuseIsClean(c: Compiler, e: Entry, k: Key)
    requires Truthful(c, e) && Reusable(e, k).Some?
    ensures CleanAir(c, k).Some? && e.air == CleanAir(c, k)
    ensures Reusable(e, k).value.0 == Metal32 ==> MayFallBack(k) && c(k, Metal40).Err?
    ensures e.warn.Some? ==> Reusable(e, k).value.1 == c(k, Reusable(e, k).value.0).warnings
  {
  }

  lemma {:induction false} EntryTruthful(c: Compiler, files: Files, stem: nat)
    requires AllTruthful(c, files)
    ensures Truthful(c, Get(files, stem))
  {
  }

  // fetch_add: the next source is claimed once, or there is none left.
  lemma {:induction false} FetchKeeps(c: Compiler, s: State, s': State, w: nat)
    requires Inv(c, s) && WorkerStep(c, s, s', w) && s.b.workers[w].Fetch?
    ensures Inv(c, s')
  {
    var b, b' := s.b, s'.b;
    forall j | 0 <= j < |b'.sources| && j < b'.next && b'.outcomes[j].None? ensures Held(b', j) {
      if j < b.next {
        var v :| 0 <= v < |b.workers| && Holds(b.workers[v]) == Some(j);
        assert v != w;
        assert Holds(b'.workers[v]) == Some(j);
      } else {
        assert Holds(b'.workers[w]) == Some(j);
      }
    }
    forall v | 0 <= v < |b'.workers| ensures WorkerOk(c, s'.files, b'.sources, b'.workers[v]) {
      assert WorkerOk(c, s.files, b.sources, b.workers[v]);
    }
    forall j | 0 <= j < |b'.sources| ensures SourceOk(c, s'.files, b', j) {
      assert SourceOk(c, s.files, b, j);
    }
  }

  lemma {:induction false} LookupKeeps(c: Compiler, s: State, s': State, w: nat)
    requires Inv(c, s) && WorkerStep(c, s, s', w) && s.b.workers[w].Lookup?
    ensures Inv(c, s')
  {
    var i := s.b.workers[w].i;
    var stem, k := s.b.sources[i].stem, s.b.sources[i].key;
    var e := Get(s.files, stem);
    EntryTruthful(c, s.files, stem);
    var r := Reusable(e, k);
    if r.Some? {
      ReuseIsClean(c, e, k);
      DeliverKeeps(c, s, s', w, i, Ready(r.value.0, r.value.1), e);
    } else {
      NoMove(c, s, s', w, i, DropKey(i));
    }
  }

  // The worker moves on and no file changes.
  lemma {:induction false} NoMove(c: Compiler, s: State, s': State, w: nat, i: nat, to: Worker)
    requires Inv(c, s) && s.Building? && s'.Building? && s.b.main.Waiting? && w < |s.b.workers|
    requires Holds(s.b.workers[w]) == Some(i) && Holds(to) == Some(i) && i < |s.b.sources|
    requires s'.files == s.files && s'.b == s.b.(workers := s.b.workers[w := to]) && WorkerOk(c, s'.files, s.b.sources, to)
    ensures Inv(c, s')
  {
    var b, b' := s.b, s'.b;
    forall j | 0 <= j < |b'.sources| && j < b'.next && b'.outcomes[j].None? ensures Held(b', j) {
      StillHeld(b, b', w, j);
    }
    forall v | 0 <= v < |b'.workers| ensures WorkerOk(c, s'.files, b'.sources, b'.workers[v]) {
      assert WorkerOk(c, s.files, b.sources, b.workers[v]);
    }
    forall j | 0 <= j < |b'.sources| ensures SourceOk(c, s'.files, b', j) {
      assert SourceOk(c, s.files, b, j);
    }
  }

  // forget and the compile's start: the key goes first, so nothing half-made is ever vouched for.
  lemma {:induction false} ForgetKeeps(c: Compiler, s: State, s': State, w: nat)
    requires Inv(c, s) && WorkerStep(c, s, s', w)
    requires s.b.workers[w].DropKey? || s.b.workers[w].DropWarn? || s.b.workers[w].Compile?
    ensures Inv(c, s')
  {
    var i := s.b.workers[w].i;
    var e := Get(s.files, s.b.sources[i].stem);
    assert WorkerOk(c, s.files, s.b.sources, s.b.workers[w]);
    match s.b.workers[w] {
      case DropKey(_) => MoveKeeps(c, s, s', w, i, DropWarn(i), e.(key := None));
      case DropWarn(_) => MoveKeeps(c, s, s', w, i, Compile(i), e.(warn := None));
      case Compile(_) =>
        var partial :| Moves(s, s', w, i, Compiling(i), e.(air := partial));
        MoveKeeps(c, s, s', w, i, Compiling(i), e.(air := partial));
    }
  }

  lemma {:induction false} CompileKeeps(c: Compiler, s: State, s': State, w: nat)
    requires Inv(c, s) && WorkerStep(c, s, s', w) && s.b.workers[w].Compiling?
    ensures Inv(c, s')
  {
    var i := s.b.workers[w].i;
    var stem, k := s.b.sources[i].stem, s.b.sources[i].key;
    var e := Get(s.files, stem);
    assert WorkerOk(c, s.files, s.b.sources, s.b.workers[w]);
    match c(k, Metal40) {
      case Ok(air, warnings) => MoveKeeps(c, s, s', w, i, PutWarn(i, warnings), e.(air := Some(air)));
      case Err(diag) =>
        var left :| s'.files == s.files[stem := e.(air := left)]
                    && s'.b == s.b.(workers := s.b.workers[w := Fetch], outcomes := s.b.outcomes[i := Some(Metal4Failed(diag))]);
        DeliverKeeps(c, s, s', w, i, Metal4Failed(diag), e.(air := left));
    }
  }

  // record: the warnings first, then the key, which commits.
  lemma {:induction false} RecordKeeps(c: Compiler, s: State, s': State, w: nat)
    requires Inv(c, s) && WorkerStep(c, s, s', w) && (s.b.workers[w].PutWarn? || s.b.workers[w].PutKey?)
    ensures Inv(c, s')
  {
    var i := s.b.workers[w].i;
    var stem, k := s.b.sources[i].stem, s.b.sources[i].key;
    var e := Get(s.files, stem);
    assert WorkerOk(c, s.files, s.b.sources, s.b.workers[w]);
    match s.b.workers[w] {
      case PutWarn(_, warnings) =>
        var wrote :| WroteWarn(wrote, warnings) && Moves(s, s', w, i, PutKey(i, warnings), e.(warn := wrote));
        MoveKeeps(c, s, s', w, i, PutKey(i, warnings), e.(warn := wrote));
      case PutKey(_, warnings) =>
        var wrote :| WroteKey(wrote, k, Metal40) && s'.files == s.files[stem := e.(key := wrote)];
        DeliverKeeps(c, s, s', w, i, Ready(Metal40, warnings), e.(key := wrote));
    }
  }

  lemma {:induction false} WorkerKeeps(c: Compiler, s: State, s': State, w: nat)
    requires Inv(c, s) && WorkerStep(c, s, s', w)
    ensures Inv(c, s')
  {
    match s.b.workers[w] {
      case Fetch => FetchKeeps(c, s, s', w);
      case Lookup(_) => LookupKeeps(c, s, s', w);
      case DropKey(_) => ForgetKeeps(c, s, s', w);
      case DropWarn(_) => ForgetKeeps(c, s, s', w);
      case Compile(_) => ForgetKeeps(c, s, s', w);
      case Compiling(_) => CompileKeeps(c, s, s', w);
      case PutWarn(_, _) => RecordKeeps(c, s, s', w);
      case PutKey(_, _) => RecordKeeps(c, s, s', w);
      case Finished =>
    }
  }

  // ---------- the main thread ----------

  // With every worker finished, every source has its outcome.
  lemma {:induction false} AllDelivered(b: Build, i: nat)
    requires Claims(b) && |b.workers| > 0 && (forall w :: 0 <= w < |b.workers| ==> b.workers[w].Finished?) && i < |b.sources|
    ensures b.outcomes[i].Some? && b.claims[i] == 1
  {
    assert b.workers[0].Finished?;
    assert !Held(b, i);
  }

  lemma {:induction false} JoinKeeps(c: Compiler, s: State, s': State)
    requires Inv(c, s) && MainStep(c, s, s') && s.b.main.Waiting?
    ensures Inv(c, s')
  {
    forall i | 0 <= i < |s'.b.sources| ensures SourceOk(c, s'.files, s'.b, i) {
      assert SourceOk(c, s.files, s.b, i);
      AllDelivered(s.b, i);
    }
    forall v | 0 <= v < |s'.b.workers| ensures WorkerOk(c, s'.files, s'.b.sources, s'.b.workers[v]) {
      assert WorkerOk(c, s.files, s.b.sources, s.b.workers[v]);
    }
    ClaimsSame(s.b, s'.b);
  }

  lemma {:induction false} ClaimsSame(b: Build, b': Build)
    requires Claims(b) && b' == b.(main := b'.main)
    ensures Claims(b')
  {
    forall j | 0 <= j < |b'.sources| && j < b'.next && b'.outcomes[j].None? ensures Held(b', j) {
      assert Held(b, j);
    }
  }

  lemma {:induction false} TakeKeeps(c: Compiler, s: State, s': State)
    requires Inv(c, s) && MainStep(c, s, s') && s.b.main.Take?
    ensures Inv(c, s')
  {
    var j := s.b.main.j;
    ClaimsSame(s.b, s'.b);
    if j < |s.b.sources| {
      assert SourceOk(c, s.files, s.b, j);
    }
    forall i | 0 <= i < |s'.b.sources| ensures SourceOk(c, s'.files, s'.b, i) {
      assert SourceOk(c, s.files, s.b, i);
    }
    forall v | 0 <= v < |s'.b.workers| ensures WorkerOk(c, s'.files, s'.b.sources, s'.b.workers[v]) {
      assert WorkerOk(c, s.files, s.b.sources, s.b.workers[v]);
    }
  }

  // A fallback step: only source j's entry changes.
  lemma {:induction false} FallbackMoves(c: Compiler, s: State, s': State, e: Entry)
    requires Inv(c, s) && s.Building? && s'.Building? && InFallback(s.b.main) && At(s.b) < |s.b.sources|
    requires s'.files == s.files[s.b.sources[At(s.b)].stem := e] && s'.b == s.b.(main := s'.b.main) && Truthful(c, e)
    requires InFallback(s'.b.main) ==> At(s'.b) == At(s.b) && FallbackOk(c, s'.files, s'.b)
    requires !InFallback(s'.b.main) ==> s'.b.main == Take(At(s.b) + 1) && Done(c, s'.files, s.b.sources[At(s.b)])
    ensures Inv(c, s')
  {
    var j := At(s.b);
    ClaimsSame(s.b, s'.b);
    forall i | 0 <= i < |s'.b.sources| ensures SourceOk(c, s'.files, s'.b, i) {
      assert SourceOk(c, s.files, s.b, i);
      if i != j {
        OtherEntries(s.b.sources, s.files, j, e, i);
      }
    }
    forall v | 0 <= v < |s'.b.workers| ensures WorkerOk(c, s'.files, s'.b.sources, s'.b.workers[v]) {
      assert s.b.workers[v].Finished?;
    }
  }

  lemma {:induction false} FallbackKeeps(c: Compiler, s: State, s': State)
    requires Inv(c, s) && MainStep(c, s, s') && InFallback(s.b.main)
    ensures Inv(c, s')
  {
    var j := At(s.b);
    var stem, k := s.b.sources[j].stem, s.b.sources[j].key;
    var e := Get(s.files, stem);
    match s.b.main {
      case Fallback(_) =>
        var partial :| s'.files == s.files[stem := e.(air := partial)] && s'.b == s.b.(main := FallingBack(j));
        FallbackMoves(c, s, s', e.(air := partial));
      case FallingBack(_) =>
        if c(k, Metal32).Ok? {
          FallbackMoves(c, s, s', e.(air := Some(c(k, Metal32).air)));
        } else {
          GiveUp(c, s, s');
        }
      case FallbackWarn(_, warnings) =>
        var wrote :| WroteWarn(wrote, warnings) && s'.files == s.files[stem := e.(warn := wrote)]
                     && s'.b == s.b.(main := FallbackKey(j, warnings));
        FallbackMoves(c, s, s', e.(warn := wrote));
      case FallbackKey(_, warnings) =>
        var wrote :| WroteKey(wrote, k, Metal32) && s'.files == s.files[stem := e.(key := wrote)]
                     && s'.b == s.b.(main := Take(j + 1));
        FallbackMoves(c, s, s', e.(key := wrote));
    }
  }

  lemma {:induction false} GiveUp(c: Compiler, s: State, s': State)
    requires Inv(c, s) && MainStep(c, s, s') && s.b.main.FallingBack? && s'.b.main.Panicked? && s'.files == s.files
    requires c(s.b.sources[At(s.b)].key, Metal32).Err?
    ensures Inv(c, s')
  {
    ClaimsSame(s.b, s'.b);
    forall i | 0 <= i < |s'.b.sources| ensures SourceOk(c, s'.files, s'.b, i) {
      assert SourceOk(c, s.files, s.b, i);
    }
    forall v | 0 <= v < |s'.b.workers| ensures WorkerOk(c, s'.files, s'.b.sources, s'.b.workers[v]) {
      assert WorkerOk(c, s.files, s.b.sources, s.b.workers[v]);
    }
  }

  lemma {:induction false} StepKeeps(c: Compiler, s: State, s': State)
    requires Inv(c, s) && Next(c, s, s')
    ensures Inv(c, s')
  {
    if Start(s, s') {
      StartKeeps(c, s, s');
    } else if !Crash(s, s') {
      if MainStep(c, s, s') {
        if s.b.main.Waiting? {
          JoinKeeps(c, s, s');
        } else if s.b.main.Take? {
          TakeKeeps(c, s, s');
        } else {
          FallbackKeeps(c, s, s');
        }
      } else {
        var w :| WorkerStep(c, s, s', w);
        WorkerKeeps(c, s, s', w);
      }
    }
  }

  lemma {:induction false} Reachable(c: Compiler, h: seq<State>, i: nat)
    requires History(c, h) && i < |h|
    ensures Inv(c, h[i])
  {
    if i > 0 {
      Reachable(c, h, i - 1);
      assert Next(c, h[i - 1], h[i - 1 + 1]);
      StepKeeps(c, h[i - 1], h[i]);
    }
  }

  // ---------- over every history ----------

  lemma {:induction false} CleanBuildIs(c: Compiler, sources: seq<Source>, n: nat)
    requires n <= |sources|
    ensures CleanBuild(c, sources[..n]).Some? <==> forall i :: 0 <= i < n ==> CleanAir(c, sources[i].key).Some?
    ensures CleanBuild(c, sources[..n]).Some? ==>
              |CleanBuild(c, sources[..n]).value| == n
              && forall i :: 0 <= i < n ==> CleanAir(c, sources[i].key) == Some(CleanBuild(c, sources[..n]).value[i])
  {
    if n > 0 {
      CleanBuildIs(c, sources, n - 1);
      assert sources[..n][..n - 1] == sources[..n - 1];
    }
  }

  // Any build that completes, after any history of builds, edits, flag changes, failures and crashes, links exactly
  // the `.air` set of a clean sequential build of its sources.
  lemma {:induction false} CompletedIsClean(c: Compiler, h: seq<State>, i: nat)
    requires History(c, h) && i < |h| && h[i].Building? && h[i].b.main.Linked?
    ensures var r := CleanBuild(c, h[i].b.sources);
            r.Some? && |h[i].b.main.airs| == |r.value|
            && forall j :: 0 <= j < |r.value| ==> h[i].b.main.airs[j] == Some(r.value[j])
  {
    Reachable(c, h, i);
    var b := h[i].b;
    forall j | 0 <= j < |b.sources| ensures Done(c, h[i].files, b.sources[j]) {
      assert SourceOk(c, h[i].files, b, j);
    }
    CleanBuildIs(c, b.sources, |b.sources|);
    assert b.sources[..|b.sources|] == b.sources;
  }

  // A build that gives up would have given up clean.
  lemma {:induction false} PanicIsClean(c: Compiler, h: seq<State>, i: nat)
    requires History(c, h) && i < |h| && h[i].Building? && h[i].b.main.Panicked?
    ensures CleanBuild(c, h[i].b.sources).None?
  {
    Reachable(c, h, i);
    var b := h[i].b;
    CleanBuildIs(c, b.sources, |b.sources|);
    assert b.sources[..|b.sources|] == b.sources;
  }

  // What a source's `.air` must be: its metal4.0 one, or where that fails and a fallback is allowed, which it is for a source
  // that is not a TensorOps one in a build that is not strict, its metal3.2 one.
  ghost predicate AirIs(c: Compiler, k: Key, air: nat) {
    (c(k, Metal40).Ok? && c(k, Metal40).air == air)
    || (c(k, Metal40).Err? && !k.werror && !k.tensorOps && c(k, Metal32).Ok? && c(k, Metal32).air == air)
  }

  // Main: the same, source by source and without the clean build: what a completed build links of each source, and what
  // a build that gives up stopped at.
  lemma {:induction false} LinkedAirs(c: Compiler, h: seq<State>, i: nat, j: nat)
    requires History(c, h) && i < |h| && h[i].Building? && h[i].b.main.Linked? && j < |h[i].b.sources|
    ensures j < |h[i].b.main.airs| && h[i].b.main.airs[j].Some? && AirIs(c, h[i].b.sources[j].key, h[i].b.main.airs[j].value)
  {
    CompletedIsClean(c, h, i);
    var b := h[i].b;
    CleanBuildIs(c, b.sources, |b.sources|);
    assert b.sources[..|b.sources|] == b.sources;
  }

  lemma {:induction false} PanicsAt(c: Compiler, h: seq<State>, i: nat) returns (j: nat)
    requires History(c, h) && i < |h| && h[i].Building? && h[i].b.main.Panicked?
    ensures j < |h[i].b.sources| && forall air :: !AirIs(c, h[i].b.sources[j].key, air)
  {
    Reachable(c, h, i);
    j := h[i].b.main.at;
  }

  // An entry is reused exactly when its key is there, names this key, and its `.air` is there; then with the dialect the key
  // names, and its warnings, none when their file is missing.
  lemma {:induction false} ReusedIff(e: Entry, k: Key)
    ensures Reusable(e, k).Some? ==> e.key == Some((k, Reusable(e, k).value.0))
    ensures Reusable(e, k).Some? ==> (Reusable(e, k).value.1 == 0 && e.warn.None?) || e.warn == Some(Reusable(e, k).value.1)
    ensures Reusable(e, k).Some? <==> e.air.Some? && (e.key == Some((k, Metal40)) || e.key == Some((k, Metal32)))
  {
    if e.key.Some? && e.key.value.0 == k {
      var std := e.key.value.1;
      assert e.key.value == (k, std) && e.key == Some((k, std)) && (std == Metal40 || std == Metal32);
    }
  }

  // In every interleaving no source is claimed twice, and once the workers are joined each has been claimed, and
  // compiled or reused, exactly once.
  lemma {:induction false} ClaimedOnce(c: Compiler, h: seq<State>, i: nat, j: nat)
    requires History(c, h) && i < |h| && h[i].Building? && j < |h[i].b.sources|
    ensures j < |h[i].b.claims| && j < |h[i].b.outcomes| && h[i].b.claims[j] <= 1
    ensures !h[i].b.main.Waiting? ==> h[i].b.claims[j] == 1 && h[i].b.outcomes[j].Some?
  {
    Reachable(c, h, i);
    if !h[i].b.main.Waiting? {
      AllDelivered(h[i].b, j);
    }
  }

  // Whatever is on disk, a strict build reuses nothing compiled under metal3.2, and neither does a TensorOps source.
  lemma {:induction false} StrictNeverReusesFallback(c: Compiler, h: seq<State>, i: nat, stem: nat, k: Key)
    requires History(c, h) && i < |h| && (k.werror || k.tensorOps)
    ensures var r := Reusable(Get(h[i].files, stem), k); r.Some? ==> r.value.0 == Metal40 && c(k, Metal40).Ok?
  {
    Reachable(c, h, i);
    EntryTruthful(c, h[i].files, stem);
  }
}
