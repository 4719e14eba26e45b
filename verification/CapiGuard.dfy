// The C boundary (src/capi.rs): guarded calls that return with nothing in flight, and the error message they write.
module CapiGuard {
  import opened Common

  // ---------- the runtime behind a handle ----------

  // What a call has the GPU do is decided outside: whether work may be running, and the latch of a failed runtime.
  datatype Rt = Rt(inFlight: bool, poisoned: bool)

  // How one wait for the GPU goes; a wait that fails may also latch the runtime.
  datatype Wait = Finished | TimedOut(message: string, poisons: bool) | Panicked(payload: string, poisons: bool)

  // How a call's own closure ends.
  datatype Outcome = Done | Failed(message: string) | Threw(payload: string)

  datatype Status = OK | ERR | PANIC

  const POISON: string := "runtime is poisoned"

  function PanicMessage(payload: string): string { "panic in tessl: " + payload }

  class Handle {
    const owner: nat
    var rt: Rt

    constructor (thread: nat)
      ensures owner == thread && rt == Rt(false, false)
    {
      owner, rt := thread, Rt(false, false);
    }

    // GpuRuntime::synchronize with a panic caught: a poisoned runtime refuses the wait.
    method Synchronize(w: Wait) returns (o: Outcome)
      modifies this
      ensures rt == if old(rt).poisoned then old(rt) else AfterWait(old(rt), w)
      ensures o == if old(rt).poisoned then Failed(POISON) else WaitOutcome(w)
    {
      if rt.poisoned {
        return Failed(POISON);
      }
      match w
      case Finished => rt := rt.(inFlight := false); o := Done;
      case TimedOut(m, p) => rt := rt.(poisoned := p); o := Failed(m);
      case Panicked(payload, p) => rt := rt.(poisoned := p); o := Threw(payload);
    }
  }

  function WaitOutcome(w: Wait): Outcome {
    match w
    case Finished => Done
    case TimedOut(m, _) => Failed(m)
    case Panicked(p, _) => Threw(p)
  }

  // A finished wait leaves nothing running; a failed one leaves what was.
  function AfterWait(s: Rt, w: Wait): Rt {
    match w
    case Finished => s.(inFlight := false)
    case TimedOut(_, p) => s.(poisoned := p)
    case Panicked(_, p) => s.(poisoned := p)
  }

  // ---------- guarded ----------

  function RefusalFor(h: Handle?, thread: nat): (r: Option<string>)
    reads if h == null then {} else {h}
  {
    if h == null then Some("null runtime handle")
    else if thread != h.owner then Some("tessl runtime used from a thread other than the one that created it")
    else None
  }

  // What a failed wait says.
  function WaitReport(w: Wait): string
    requires !w.Finished?
  {
    if w.TimedOut? then w.message else PanicMessage(w.payload)
  }

  predicate Suffix(s: string, t: string) { |s| <= |t| && t[|t| - |s|..] == s }

  // The error-path wait: finish what the failed call submitted, and append the wait's own failure. A poisoned runtime
  // is not waited for.
  method WaitAfterFailure(h: Handle, msg: string, w: Wait) returns (m: string)
    modifies h
    ensures h.rt == if old(h.rt).poisoned then old(h.rt) else AfterWait(old(h.rt), w)
    ensures msg <= m
    ensures m == msg <==> old(h.rt).poisoned || w.Finished?
    ensures m != msg ==> Suffix(WaitReport(w), m)
  {
    if h.rt.poisoned {
      return msg;
    }
    var r := h.Synchronize(w);
    match r
    case Done => m := msg;
    case Failed(e) => m := msg + "; the wait for work already submitted then failed: " + e;
    case Threw(p) => m := msg + "; the wait for work already submitted then failed: " + ("panic in tessl: " + p);
  }

  // The state a closure leaves; the latch never opens again.
  function Left(s: Rt, busy: bool, poisons: bool): Rt { Rt(busy, s.poisoned || poisons) }

  // One call at the boundary: `o` is how its closure ends, with work in flight or not and the runtime latched or not;
  // `w` is how the one wait goes that is attempted, if any.
  method Guarded(h: Handle?, thread: nat, o: Outcome, busy: bool, poisons: bool, w: Wait) returns (status: Status, msg: string)
    modifies if h == null then {} else {h}
    ensures RefusalFor(h, thread).Some? ==> status == ERR && msg == RefusalFor(h, thread).value
    ensures h != null && RefusalFor(h, thread).Some? ==> h.rt == old(h.rt)
    ensures h != null && thread == h.owner ==> Returned(old(h.rt), o, busy, poisons, w, status, msg, h.rt)
  {
    if h == null {
      return ERR, "null runtime handle";
    }
    if thread != h.owner {
      return ERR, "tessl runtime used from a thread other than the one that created it";
    }
    h.rt := Rt(busy, h.rt.poisoned || poisons);
    match o {
      case Done =>
        var r := h.Synchronize(w);
        match r {
          case Done => status, msg := OK, "";
          case Failed(e) => status, msg := ERR, e;
          case Threw(p) => status, msg := PANIC, "panic in tessl: " + p;
        }
      case Failed(e) =>
        status := ERR;
        msg := WaitAfterFailure(h, e, w);
      case Threw(p) =>
        status := PANIC;
        msg := WaitAfterFailure(h, "panic in tessl: " + p, w);
    }
  }

  // What the boundary promises of a call that got to run: its own failure heads the message, OK means finished, and
  // work can still be in flight only on a poisoned runtime or behind a message that ends with the failed wait.
  ghost predicate Returned(s: Rt, o: Outcome, busy: bool, poisons: bool, w: Wait, status: Status, msg: string, t: Rt) {
    (status == OK ==> o.Done? && !t.inFlight && !t.poisoned && msg == "")
    && (o.Failed? ==> status == ERR && o.message <= msg)
    && (o.Threw? ==> status == PANIC && PanicMessage(o.payload) <= msg)
    && (s.poisoned ==> t.poisoned && status != OK)
    && (t.inFlight ==> busy && (t.poisoned || Reported(w, msg)))
    && (!t.inFlight && busy ==> w.Finished?)
    && (status == OK <==> o.Done? && w.Finished? && !s.poisoned && !poisons)
  }

  predicate Reported(w: Wait, msg: string) { !w.Finished? && Suffix(WaitReport(w), msg) }

  // ---------- a sequence of calls on one handle ----------

  datatype Call = Call(thread: nat, o: Outcome, busy: bool, poisons: bool, w: Wait)

  // One way the calls can go: rts[i] is the runtime before call i, msgs[i] what call i wrote.
  ghost predicate Run(owner: nat, calls: seq<Call>, rts: seq<Rt>, stats: seq<Status>, msgs: seq<string>) {
    |rts| == |calls| + 1 && |stats| == |msgs| == |calls| && rts[0] == Rt(false, false)
    && forall i :: 0 <= i < |calls| ==>
         var c := calls[i];
         if c.thread != owner then rts[i + 1] == rts[i] && stats[i] == ERR
         else Returned(rts[i], c.o, c.busy, c.poisons, c.w, stats[i], msgs[i], rts[i + 1])
  }

  // Main: after any calls in any order, work is in flight only if the runtime is poisoned or the last call that was
  // let in ended its message with a failed wait.
  lemma {:induction false} IdleUnlessTold(owner: nat, calls: seq<Call>, rts: seq<Rt>, stats: seq<Status>, msgs: seq<string>, i: nat)
    requires Run(owner, calls, rts, stats, msgs) && i <= |calls| && rts[i].inFlight && !rts[i].poisoned
    ensures exists j :: 0 <= j < i && calls[j].thread == owner && Reported(calls[j].w, msgs[j])
                        && forall k :: j < k < i ==> calls[k].thread != owner
  {
    if i > 0 {
      var c := calls[i - 1];
      if c.thread != owner {
        IdleUnlessTold(owner, calls, rts, stats, msgs, i - 1);
      } else {
        assert Reported(calls[i - 1].w, msgs[i - 1]);
      }
    }
  }

  // Main: once poisoned, always poisoned, and no later call returns OK.
  lemma {:induction false} PoisonLasts(owner: nat, calls: seq<Call>, rts: seq<Rt>, stats: seq<Status>, msgs: seq<string>, i: nat, j: nat)
    requires Run(owner, calls, rts, stats, msgs) && i <= j <= |calls| && rts[i].poisoned
    ensures rts[j].poisoned && (j < |calls| ==> stats[j] != OK)
    decreases j - i
  {
    if i == j {
      if j < |calls| {
        var c := calls[j];
        if c.thread != owner {
          assert stats[j] == ERR;
        } else {
          assert Returned(rts[j], c.o, c.busy, c.poisons, c.w, stats[j], msgs[j], rts[j + 1]);
          assert stats[j] != OK;
        }
      }
    } else {
      assert calls[i].thread != owner || Returned(rts[i], calls[i].o, calls[i].busy, calls[i].poisons, calls[i].w, stats[i], msgs[i], rts[i + 1]);
      PoisonLasts(owner, calls, rts, stats, msgs, i + 1, j);
    }
  }

  // ---------- the message buffer ----------

  // A position no UTF-8 character straddles: not before a continuation Byte.
  predicate CharBoundary(msg: seq<Byte>, i: nat)
    requires i <= |msg|
  {
    i == 0 || i == |msg| || !(0x80 <= msg[i] < 0xC0)
  }

  // The longest whole-character prefix that fits.
  ghost predicate Truncated(msg: seq<Byte>, room: nat, end: nat) {
    end <= |msg| && end <= room && CharBoundary(msg, end)
    && forall i :: end < i <= |msg| && i <= room ==> !CharBoundary(msg, i)
  }

  // write_err: the message's longest whole-character prefix that leaves room for the NUL, and nothing after it.
  method WriteErr(err: array?<Byte>, msg: seq<Byte>) returns (ghost end: nat)
    modifies if err == null then {} else {err}
    ensures err != null && err.Length > 0 ==>
              Truncated(msg, err.Length - 1, end) && err[..end] == msg[..end] && err[end] == 0
              && err[end + 1..] == old(err[..])[end + 1..]
  {
    end := 0;
    if err == null || err.Length == 0 {
      return;
    }
    var n: nat := if |msg| < err.Length - 1 then |msg| else err.Length - 1;
    while !CharBoundary(msg, n)
      invariant n <= |msg| && n <= err.Length - 1
      invariant forall i :: n < i <= |msg| && i <= err.Length - 1 ==> !CharBoundary(msg, i)
      decreases n
    {
      n := n - 1;
    }
    for i := 0 to n
      invariant forall j :: 0 <= j < err.Length ==> err[j] == if j < i then msg[j] else old(err[j])
    {
      err[i] := msg[i];
    }
    err[n] := 0;
    end := n;
  }

  // Main: the caller reads the whole message exactly when the buffer is longer than it. A shorter one cuts the end
  // off, which is where a failed wait is reported.
  lemma {:induction false} WholeIffRoom(msg: seq<Byte>, length: nat, end: nat)
    requires length > 0 && Truncated(msg, length - 1, end)
    ensures end == |msg| <==> |msg| < length
  {
    if |msg| < length { assert CharBoundary(msg, |msg|); }
  }

  // What a C caller reads: the bytes before the first NUL.
  function CString(buf: seq<Byte>): (s: seq<Byte>)
    ensures |s| <= |buf|
  {
    if buf == [] || buf[0] == 0 then [] else [buf[0]] + CString(buf[1..])
  }

  lemma {:induction false} CStringOf(s: seq<Byte>, rest: seq<Byte>)
    ensures 0 !in s ==> CString(s + [0] + rest) == s
    ensures 0 in s ==> |CString(s + [0] + rest)| < |s|
  {
    if s == [] {
      assert [] + [0] + rest == [0] + rest;
    } else {
      var buf := s + [0] + rest;
      assert buf[1..] == s[1..] + [0] + rest;
      if s[0] != 0 {
        CStringOf(s[1..], rest);
        assert (0 in s) == (0 in s[1..]);
      }
    }
  }

  // Main: what a C caller reads is the whole message exactly when the buffer is longer than it and no NUL is inside it.
  lemma {:induction false} ReadWholeIff(buf: seq<Byte>, msg: seq<Byte>, end: nat)
    requires |buf| > 0 && Truncated(msg, |buf| - 1, end) && buf[..end] == msg[..end] && buf[end] == 0
    ensures CString(buf) == msg <==> |msg| < |buf| && 0 !in msg
  {
    WholeIffRoom(msg, |buf|, end);
    assert buf == msg[..end] + [0] + buf[end + 1..];
    CStringOf(msg[..end], buf[end + 1..]);
    if end == |msg| { assert msg[..end] == msg; }
  }

  // A call that fails with "no" and whose wait fails too, with eight bytes of room: of "no; the wait for ..." the caller
  // reads "no; the", and nothing of the wait's own message.
  lemma {:induction false} WaitReportCut(msg: seq<Byte>, buf: seq<Byte>, end: nat)
    requires |msg| > 7 && msg[..8] == [0x6E, 0x6F, 0x3B, 0x20, 0x74, 0x68, 0x65, 0x20]
    requires |buf| == 8 && Truncated(msg, 7, end) && buf[..end] == msg[..end] && buf[end] == 0
    ensures CString(buf) == [0x6E, 0x6F, 0x3B, 0x20, 0x74, 0x68, 0x65]
  {
    assert msg[7] == msg[..8][7];
    assert CharBoundary(msg, 7);
    assert end == 7;
    assert msg[..7] == msg[..8][..7];
    assert buf == msg[..7] + [0] + [];
    CStringOf(msg[..7], []);
  }
}
