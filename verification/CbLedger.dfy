// The two-slot ping-pong ledger of recorded command buffers (src/cb_replay.rs): what one call does to it.
module CbLedger {
  import opened Common

  const U64: nat := 0x1_0000_0000_0000_0000

  datatype CbSlot = A | B
  {
    function Peer(): CbSlot { if this == A then B else A }

    function Index(): (i: nat)
      ensures i < 2
    {
      if this == A then 0 else 1
    }
  }

  datatype Phase = Idle | Recording | Ready | InFlight

  datatype Slot = Slot(phase: Phase, generation: nat, note: string)

  // An attached tape: whether it is encoded, and whether its last execute was suppressed.
  datatype Icb = Icb(encoded: bool, lastNop: bool)

  datatype Error = AlreadyRecording | NotRecording | NotReady | SlotInFlight | NotWired | IcbExecuteFailed(message: string)

  datatype Result<T> = Ok(value: T) | Err(error: Error)

  // What one execute of an encoded tape does, decided outside the ledger: it may fail, and it leaves the nop flag.
  datatype Exec = Exec(failed: bool, nop: bool, message: string)
  {
    predicate Ran() { !failed && !nop }
  }

  datatype Counters = Counters(liveEncodes: nat, notWired: nat, icbFailures: nat, icbReplays: nat, layerLive: nat, stale: nat)

  // The ledger as a value.
  datatype Ledger = Ledger(a: Slot, b: Slot, active: CbSlot, nextGen: nat, dryRun: bool, n: Counters, icb: Option<Icb>)
  {
    function Of(x: CbSlot): Slot { if x == A then a else b }

    function With(x: CbSlot, s: Slot): Ledger { if x == A then this.(a := s) else this.(b := s) }

    function At(x: CbSlot, p: Phase): Ledger { With(x, Of(x).(phase := p)) }

    predicate Wired() { icb.Some? && icb.value.encoded }
  }

  function Fresh(dryRun: bool): Ledger {
    var s := Slot(Idle, 0, "");
    Ledger(s, s, A, 1, dryRun, Counters(0, 0, 0, 0, 0, 0), None)
  }

  // saturating_add(1)
  function Bump(n: nat): nat { if n + 1 < U64 then n + 1 else n }

  // ---------- one call, in closed form ----------

  datatype Op =
    | Attach(icb: Icb)
    | Execute(exec: Exec)
    | TryIcb(slot: CbSlot, enabled: bool, exec: Exec)
    | TryReadyIcb(enabled: bool, exec: Exec)
    | MarkLive(note: string)
    | MarkReplay(note: string)
    | NoteLayer(note: string)
    | TryReady
    | Begin(slot: CbSlot, note: string)
    | Finish(slot: CbSlot)
    | Try(slot: CbSlot)
    | Complete(slot: CbSlot)
    | Flip

  // A step on the active slot: an open recording is closed as it is, anything else becomes a new recording; either
  // way the slot ends Ready and the peer is active.
  function Recorded(s: Ledger, note: string): Ledger {
    if s.Of(s.active).phase == Recording then s.At(s.active, Ready)
    else s.With(s.active, Slot(Ready, s.nextGen, note)).(nextGen := (s.nextGen + 1) % U64)
  }

  function Marked(s: Ledger, note: string): Ledger {
    Recorded(s, note).(active := s.active.Peer())
  }

  // A replay attempt: only an execute that really ran claims the slot and counts.
  function IcbTried(s: Ledger, x: CbSlot, enabled: bool, e: Exec): Ledger {
    if s.Of(x).phase != Ready then s
    else if !enabled || !s.Wired() then s.(n := s.n.(notWired := Bump(s.n.notWired)))
    else
      var t := s.(icb := Some(Icb(true, e.nop)));
      if e.failed then t.(n := s.n.(icbFailures := Bump(s.n.icbFailures)))
      else if e.nop then t
      else t.At(x, InFlight).(n := s.n.(icbReplays := Bump(s.n.icbReplays)))
  }

  function IcbTriedRet(s: Ledger, x: CbSlot, enabled: bool, e: Exec): Result<()> {
    if s.Of(x).phase != Ready then Err(NotReady)
    else if !enabled || !s.Wired() then Err(NotWired)
    else if e.failed then Err(IcbExecuteFailed(e.message))
    else Ok(())
  }

  // The slot a search for a Ready one names: A before B.
  function FirstReady(s: Ledger): Option<CbSlot> {
    if s.a.phase == Ready then Some(A) else if s.b.phase == Ready then Some(B) else None
  }

  function Begun(s: Ledger, x: CbSlot, note: string): Ledger {
    if s.Of(x).phase == Idle || s.Of(x).phase == Ready
    then s.With(x, Slot(Recording, s.nextGen, note)).(nextGen := (s.nextGen + 1) % U64, active := x)
    else s
  }

  function DryTried(s: Ledger, x: CbSlot): Ledger {
    if s.Of(x).phase != Ready then s
    else if s.dryRun then s.At(x, InFlight) else s.(n := s.n.(notWired := Bump(s.n.notWired)))
  }

  function DryTriedRet(s: Ledger, x: CbSlot): Result<()> {
    if s.Of(x).phase != Ready then Err(NotReady) else if s.dryRun then Ok(()) else Err(NotWired)
  }

  function Completed(s: Ledger, x: CbSlot): Ledger {
    if s.Of(x).phase == Recording then s.(n := s.n.(stale := Bump(s.n.stale)))
    else s.With(x, Slot(Idle, s.Of(x).generation, ""))
  }

  function Executed(s: Ledger, e: Exec): Ledger {
    if !s.Wired() then s
    else
      var t := s.(icb := Some(Icb(true, e.nop)));
      if e.Ran() then t.(n := s.n.(icbReplays := Bump(s.n.icbReplays))) else t
  }

  function Next(s: Ledger, op: Op): Ledger {
    match op
    case Attach(icb) => s.(icb := Some(icb))
    case Execute(e) => Executed(s, e)
    case TryIcb(x, enabled, e) => IcbTried(s, x, enabled, e)
    case TryReadyIcb(enabled, e) => if FirstReady(s).Some? then IcbTried(s, FirstReady(s).value, enabled, e) else s
    case MarkLive(note) => Marked(s.(n := s.n.(liveEncodes := Bump(s.n.liveEncodes))), note)
    case MarkReplay(note) => Marked(s, note)
    case NoteLayer(note) => Marked(s.(n := s.n.(layerLive := Bump(s.n.layerLive))), note)
    case TryReady => if FirstReady(s).Some? then DryTried(s, FirstReady(s).value) else s
    case Begin(x, note) => Begun(s, x, note)
    case Finish(x) => if s.Of(x).phase == Recording then s.At(x, Ready) else s
    case Try(x) => DryTried(s, x)
    case Complete(x) => Completed(s, x)
    case Flip => s.(active := s.active.Peer())
  }

  // ---------- the ledger itself ----------

  class PingPongCbReplay {
    const slots: array<Slot>
    var active: CbSlot
    var nextGen: nat
    const dryRun: bool
    var liveEncodes: nat
    var notWiredHits: nat
    var icbExecuteFailures: nat
    var icbReplays: nat
    var layerLiveReplays: nat
    var staleCompletes: nat
    var decodeIcb: Option<Icb>

    ghost predicate Valid()
      reads this, slots
    {
      slots.Length == 2 && nextGen < U64
    }

    ghost function State(): Ledger
      reads this, slots
      requires Valid()
    {
      Ledger(slots[0], slots[1], active, nextGen, dryRun,
             Counters(liveEncodes, notWiredHits, icbExecuteFailures, icbReplays, layerLiveReplays, staleCompletes), decodeIcb)
    }

    constructor (dry: bool)
      ensures Valid() && fresh(slots) && State() == Fresh(dry)
    {
      slots := new Slot[2](_ => Slot(Idle, 0, ""));
      active, nextGen, dryRun := A, 1, dry;
      liveEncodes, notWiredHits, icbExecuteFailures, icbReplays, layerLiveReplays, staleCompletes := 0, 0, 0, 0, 0, 0;
      decodeIcb := None;
    }

    method AttachDecodeIcb(icb: Icb)
      requires Valid()
      modifies this
      ensures Valid() && State() == Next(old(State()), Attach(icb))
    {
      decodeIcb := Some(icb);
    }

    // Fails without a tape, on a tape that is not encoded, and when the tape's own execute does.
    method ExecuteDecodeIcb(e: Exec) returns (r: Result<()>)
      requires Valid()
      modifies this
      ensures Valid() && State() == Next(old(State()), Execute(e))
      ensures r.Ok? <==> old(State()).Wired() && !e.failed
      ensures r.Err? && old(State()).Wired() ==> r.error == IcbExecuteFailed(e.message)
    {
      if decodeIcb.None? {
        return Err(IcbExecuteFailed("execute_decode_icb: no DecodeIcb attached"));
      }
      if !decodeIcb.value.encoded {
        return Err(IcbExecuteFailed("DecodeIcb: encode before execute"));
      }
      decodeIcb := Some(decodeIcb.value.(lastNop := e.nop));
      if e.failed {
        return Err(IcbExecuteFailed(e.message));
      }
      if decodeIcb.value.lastNop {
        return Ok(());
      }
      icbReplays := Bump(icbReplays);
      return Ok(());
    }

    method TryReplayIcb(slot: CbSlot, enabled: bool, e: Exec) returns (r: Result<()>)
      requires Valid()
      modifies this, slots
      ensures Valid() && State() == Next(old(State()), TryIcb(slot, enabled, e))
      ensures r == IcbTriedRet(old(State()), slot, enabled, e)
    {
      if slots[slot.Index()].phase != Ready {
        return Err(NotReady);
      }
      if !enabled || !(decodeIcb.Some? && decodeIcb.value.encoded) {
        notWiredHits := Bump(notWiredHits);
        return Err(NotWired);
      }
      slots[slot.Index()] := slots[slot.Index()].(phase := InFlight);
      var ran := ExecuteDecodeIcb(e);
      if ran.Err? {
        slots[slot.Index()] := slots[slot.Index()].(phase := Ready);
        icbExecuteFailures := Bump(icbExecuteFailures);
        return ran;
      }
      if decodeIcb.Some? && decodeIcb.value.lastNop {
        slots[slot.Index()] := slots[slot.Index()].(phase := Ready);
      }
      return Ok(());
    }

    method TryReplayReadyIcb(enabled: bool, e: Exec) returns (r: Result<CbSlot>)
      requires Valid()
      modifies this, slots
      ensures Valid() && State() == Next(old(State()), TryReadyIcb(enabled, e))
      ensures r == match FirstReady(old(State()))
                   case None => Err(NotReady)
                   case Some(x) => (match IcbTriedRet(old(State()), x, enabled, e) case Ok(_) => Ok(x) case Err(e) => Err(e))
    {
      var tried: Result<()>;
      if slots[0].phase == Ready {
        tried := TryReplayIcb(A, enabled, e);
        return if tried.Err? then Err(tried.error) else Ok(A);
      }
      if slots[1].phase == Ready {
        tried := TryReplayIcb(B, enabled, e);
        return if tried.Err? then Err(tried.error) else Ok(B);
      }
      return Err(NotReady);
    }

    method BeginRecord(slot: CbSlot, note: string) returns (r: Result<()>)
      requires Valid()
      modifies this, slots
      ensures Valid() && State() == Next(old(State()), Begin(slot, note))
      ensures r == match old(State()).Of(slot).phase
                   case Recording => Err(AlreadyRecording)
                   case InFlight => Err(SlotInFlight)
                   case _ => Ok(())
    {
      match slots[slot.Index()].phase
      case Recording => return Err(AlreadyRecording);
      case InFlight => return Err(SlotInFlight);
      case _ =>
      var gen := nextGen;
      nextGen := (nextGen + 1) % U64;
      slots[slot.Index()] := Slot(Recording, gen, note);
      active := slot;
      return Ok(());
    }

    method FinishRecord(slot: CbSlot) returns (r: Result<()>)
      requires Valid()
      modifies slots
      ensures Valid() && State() == Next(old(State()), Finish(slot))
      ensures r == if old(State()).Of(slot).phase == Recording then Ok(()) else Err(NotRecording)
    {
      if slots[slot.Index()].phase != Recording {
        return Err(NotRecording);
      }
      slots[slot.Index()] := slots[slot.Index()].(phase := Ready);
      return Ok(());
    }

    method OnGpuComplete(slot: CbSlot)
      requires Valid()
      modifies this, slots
      ensures Valid() && State() == Next(old(State()), Complete(slot))
    {
      if slots[slot.Index()].phase == Recording {
        staleCompletes := Bump(staleCompletes);
        return;
      }
      slots[slot.Index()] := slots[slot.Index()].(phase := Idle, note := "");
    }

    method FlipActive()
      requires Valid()
      modifies this
      ensures Valid() && State() == Next(old(State()), Flip)
    {
      active := active.Peer();
    }

    // The phase match of MarkStepInner: leaves the active slot Ready, whatever it was.
    method RecordActive(note: string) returns (r: Result<()>)
      requires Valid()
      modifies this, slots
      ensures Valid() && State() == Recorded(old(State()), note) && r == Ok(())
    {
      var slot := active;
      match slots[slot.Index()].phase {
        case Recording =>
          r := FinishRecord(slot);
        case InFlight =>
          OnGpuComplete(slot);
          r := BeginRecord(slot, note);
          if r.Ok? { r := FinishRecord(slot); }
        case _ =>
          r := BeginRecord(slot, note);
          if r.Ok? { r := FinishRecord(slot); }
      }
    }

    // Never fails, from any state: no error of the calls it makes gets out.
    method MarkStepInner(note: string, countLive: bool) returns (r: Result<()>)
      requires Valid()
      modifies this, slots
      ensures Valid() && State() == Next(old(State()), if countLive then MarkLive(note) else MarkReplay(note))
      ensures r == Ok(())
    {
      r := RecordActive(note);
      if r.Ok? {
        if countLive {
          liveEncodes := Bump(liveEncodes);
        }
        FlipActive();
      }
    }

    method MarkLiveStep(note: string) returns (r: Result<()>)
      requires Valid()
      modifies this, slots
      ensures Valid() && State() == Next(old(State()), MarkLive(note)) && r == Ok(())
    {
      r := MarkStepInner(note, true);
    }

    method MarkReplayStep(note: string) returns (r: Result<()>)
      requires Valid()
      modifies this, slots
      ensures Valid() && State() == Next(old(State()), MarkReplay(note)) && r == Ok(())
    {
      r := MarkStepInner(note, false);
    }

    method NoteLayerLiveReplay(note: string) returns (r: Result<()>)
      requires Valid()
      modifies this, slots
      ensures Valid() && State() == Next(old(State()), NoteLayer(note)) && r == Ok(())
    {
      r := MarkReplayStep(note);
      if r.Ok? { layerLiveReplays := Bump(layerLiveReplays); }
    }

    method TryReplay(slot: CbSlot) returns (r: Result<()>)
      requires Valid()
      modifies this, slots
      ensures Valid() && State() == Next(old(State()), Try(slot))
      ensures r == DryTriedRet(old(State()), slot)
    {
      if slots[slot.Index()].phase != Ready {
        return Err(NotReady);
      }
      if !dryRun {
        notWiredHits := Bump(notWiredHits);
        return Err(NotWired);
      }
      slots[slot.Index()] := slots[slot.Index()].(phase := InFlight);
      return Ok(());
    }

    method TryReplayReady() returns (r: Result<CbSlot>)
      requires Valid()
      modifies this, slots
      ensures Valid() && State() == Next(old(State()), TryReady)
      ensures r == match FirstReady(old(State()))
                   case None => Err(NotReady)
                   case Some(x) => (match DryTriedRet(old(State()), x) case Ok(_) => Ok(x) case Err(e) => Err(e))
    {
      var tried: Result<()>;
      if slots[0].phase == Ready {
        tried := TryReplay(A);
        return if tried.Err? then Err(tried.error) else Ok(A);
      }
      if slots[1].phase == Ready {
        tried := TryReplay(B);
        return if tried.Err? then Err(tried.error) else Ok(B);
      }
      return Err(NotReady);
    }
  }
}
