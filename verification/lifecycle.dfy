/** Properties of the tunnel lifecycle over whole call sequences: an invariant
    every `StartSocksTunnel`/`StopTunnel` call keeps, from which no stack or
    device is ever closed twice; idempotence of `StopTunnel`; exactly-once
    teardown of a started tunnel however often it is stopped; and the sharp
    edge of the process-wide handler slots.
 */
module Lifecycle {
  import opened Base
  import opened Core
  import opened Mobile

  /** One call a host application can make. `wrapOk` resolves whether
      `os.NewFile` accepts the descriptor. */
  datatype Call =
    | StartCall(fd: int, host: string, port: int, wrapOk: bool)
    | StopCall(h: Option<HandleRef>)

  /** A call is possible when its handle pointer, if any, is allocated. */
  predicate CallPossible(w: World, c: Call)
  {
    c.StopCall? && c.h.Some? ==> c.h.value < |w.handles|
  }

  function Step(w: World, c: Call): World
    requires CallPossible(w, c)
  {
    match c
    case StartCall(fd, host, port, wrapOk) => StartSocksTunnel(w, fd, host, port, wrapOk).world
    case StopCall(h) => StopTunnel(w, h)
  }

  /** Every call of the sequence is possible in the state it is made in. */
  predicate Runnable(w: World, calls: seq<Call>)
    decreases |calls|
  {
    |calls| == 0 || (CallPossible(w, calls[0]) && Runnable(Step(w, calls[0]), calls[1..]))
  }

  function Run(w: World, calls: seq<Call>): World
    requires Runnable(w, calls)
    decreases |calls|
  {
    if |calls| == 0 then w else Run(Step(w, calls[0]), calls[1..])
  }

  /** `StopTunnel` applied `n` times to the same pointer. */
  function StopRepeatedly(w: World, h: HandleRef, n: nat): (r: World)
    requires h < |w.handles|
    ensures |r.handles| == |w.handles|
    decreases n
  {
    if n == 0 then w
    else
      var w' := StopTunnel(w, Some(h));
      assert |w'.handles| == |w.handles|;
      StopRepeatedly(w', h, n - 1)
  }

  /** A handle owns a stack and a device that were allocated before; while it
      is started neither has been closed. */
  ghost predicate HandleOwns(w: World, hd: Handle)
  {
    && hd.stack.Some? && hd.stack.value < w.nextStack
    && hd.dev.Some? && hd.dev.value < w.nextDev
    && (hd.started ==>
          Lookup(w.g.stackCloses, hd.stack.value) == 0 && Lookup(w.g.devCloses, hd.dev.value) == 0)
  }

  ghost predicate Inv(w: World)
  {
    // the process-wide state is what the log says it is
    && w.g == Replay(w.log)
    && (forall i :: 0 <= i < |w.handles| ==> HandleOwns(w, w.handles[i]))
    // no two handles share a stack or a device
    && (forall i, j :: 0 <= i < j < |w.handles| ==>
          w.handles[i].stack != w.handles[j].stack && w.handles[i].dev != w.handles[j].dev)
    // resources not allocated yet were never closed
    && (forall s: StackId :: s >= w.nextStack ==> Lookup(w.g.stackCloses, s) == 0)
    && (forall d: DevId :: d >= w.nextDev ==> Lookup(w.g.devCloses, d) == 0)
    // nothing was closed twice
    && (forall s: StackId :: Lookup(w.g.stackCloses, s) <= 1)
    && (forall d: DevId :: Lookup(w.g.devCloses, d) <= 1)
  }

  lemma InitInv()
    ensures Inv(Init)
  {
  }

  lemma {:induction false} StartPreservesInv(w: World, fd: int, host: string, port: int, wrapOk: bool)
    requires Inv(w)
    ensures Inv(StartSocksTunnel(w, fd, host, port, wrapOk).world)
  {
    if ValidEndpoint(host, port) && wrapOk {
      var r := StartSocksTunnel(w, fd, host, port, wrapOk).world;
      var p := Narrow(port);
      var s, d := w.nextStack, w.nextDev;
      var tcp, udp := TcpHandler(host, p), UdpHandler(host, p, UdpTimeout);
      assert p == port as uint16 by { NarrowLosslessIff(port); }
      ReplaySnoc(w.log, CreateStack(s));
      ReplaySnoc(w.log + [CreateStack(s)], RegisterOutput(d));
      ReplaySnoc(w.log + [CreateStack(s), RegisterOutput(d)], SetTcp(tcp));
      ReplaySnoc(w.log + [CreateStack(s), RegisterOutput(d), SetTcp(tcp)], SetUdp(udp));
      ReplaySnoc(w.log + [CreateStack(s), RegisterOutput(d), SetTcp(tcp), SetUdp(udp)], SpawnRelay(s, d, Mtu));
      assert r.log == w.log + [CreateStack(s), RegisterOutput(d), SetTcp(tcp), SetUdp(udp)] + [SpawnRelay(s, d, Mtu)];
      assert r.g == Replay(r.log);
      assert forall i :: 0 <= i < |r.handles| ==> HandleOwns(r, r.handles[i]) by {
        forall i | 0 <= i < |r.handles|
          ensures HandleOwns(r, r.handles[i])
        {
          if i < |w.handles| {
            assert r.handles[i] == w.handles[i];
            assert HandleOwns(w, w.handles[i]);
          }
        }
      }
      assert forall i, j :: 0 <= i < j < |r.handles| ==>
          r.handles[i].stack != r.handles[j].stack && r.handles[i].dev != r.handles[j].dev by {
        forall i, j | 0 <= i < j < |r.handles|
          ensures r.handles[i].stack != r.handles[j].stack && r.handles[i].dev != r.handles[j].dev
        {
          assert HandleOwns(w, w.handles[i]);
          if j < |w.handles| {
            assert r.handles[i] == w.handles[i] && r.handles[j] == w.handles[j];
          }
        }
      }
    }
  }

  lemma {:induction false} StopPreservesInv(w: World, h: Option<HandleRef>)
    requires Inv(w)
    requires h.Some? ==> h.value < |w.handles|
    ensures Inv(StopTunnel(w, h))
  {
    if h.Some? && w.handles[h.value].started {
      var k := h.value;
      var hd := w.handles[k];
      var r := StopTunnel(w, h);
      assert HandleOwns(w, hd);
      var s, d := hd.stack.value, hd.dev.value;
      ReplaySnoc(w.log, ClearTcp);
      ReplaySnoc(w.log + [ClearTcp], ClearUdp);
      ReplaySnoc(w.log + [ClearTcp, ClearUdp], CloseStack(s));
      ReplaySnoc(w.log + [ClearTcp, ClearUdp, CloseStack(s)], CloseDev(d));
      assert r.log == w.log + [ClearTcp, ClearUdp, CloseStack(s)] + [CloseDev(d)];
      assert r.g.stackCloses == Bump(w.g.stackCloses, s);
      assert r.g.devCloses == Bump(w.g.devCloses, d);
      assert r.g == Replay(r.log);
      assert forall i :: 0 <= i < |r.handles| ==> HandleOwns(r, r.handles[i]) by {
        forall i | 0 <= i < |r.handles|
          ensures HandleOwns(r, r.handles[i])
        {
          assert HandleOwns(w, w.handles[i]);
          if i != k {
            assert r.handles[i] == w.handles[i];
            if i < k {
              assert w.handles[i].stack != hd.stack && w.handles[i].dev != hd.dev;
            } else {
              assert w.handles[k].stack != w.handles[i].stack && w.handles[k].dev != w.handles[i].dev;
            }
          }
        }
      }
      assert forall i, j :: 0 <= i < j < |r.handles| ==>
          r.handles[i].stack != r.handles[j].stack && r.handles[i].dev != r.handles[j].dev by {
        forall i, j | 0 <= i < j < |r.handles|
          ensures r.handles[i].stack != r.handles[j].stack && r.handles[i].dev != r.handles[j].dev
        {
          assert w.handles[i].stack != w.handles[j].stack && w.handles[i].dev != w.handles[j].dev;
        }
      }
    }
  }

  lemma StepPreservesInv(w: World, c: Call)
    requires Inv(w)
    requires CallPossible(w, c)
    ensures Inv(Step(w, c))
  {
    match c
    case StartCall(fd, host, port, wrapOk) => StartPreservesInv(w, fd, host, port, wrapOk);
    case StopCall(h) => StopPreservesInv(w, h);
  }

  lemma {:induction false} RunPreservesInv(w: World, calls: seq<Call>)
    requires Inv(w)
    requires Runnable(w, calls)
    ensures Inv(Run(w, calls))
    decreases |calls|
  {
    if |calls| > 0 {
      StepPreservesInv(w, calls[0]);
      RunPreservesInv(Step(w, calls[0]), calls[1..]);
    }
  }

  /** Whatever a host application does, starting from a fresh process no stack
      and no device is ever closed twice, and the log agrees. */
  lemma NoDoubleClose(calls: seq<Call>)
    requires Runnable(Init, calls)
    ensures forall s: StackId :: Count(Run(Init, calls).log, CloseStack(s)) <= 1
    ensures forall d: DevId :: Count(Run(Init, calls).log, CloseDev(d)) <= 1
  {
    InitInv();
    RunPreservesInv(Init, calls);
    var w := Run(Init, calls);
    forall s: StackId
      ensures Count(w.log, CloseStack(s)) <= 1
    {
      ReplayCountsStackCloses(w.log, s);
    }
    forall d: DevId
      ensures Count(w.log, CloseDev(d)) <= 1
    {
      ReplayCountsDevCloses(w.log, d);
    }
  }

  /** A second `StopTunnel` on the same pointer changes nothing. */
  lemma StopIdempotent(w: World, h: Option<HandleRef>)
    requires h.Some? ==> h.value < |w.handles|
    ensures StopTunnel(StopTunnel(w, h), h) == StopTunnel(w, h)
  {
  }

  /** Stopping a started handle any positive number of times is stopping it once. */
  lemma {:induction false} StopRepeatedlyIsStopOnce(w: World, h: HandleRef, n: nat)
    requires h < |w.handles|
    requires n >= 1
    ensures StopRepeatedly(w, h, n) == StopTunnel(w, Some(h))
    decreases n
  {
    if n > 1 {
      var w' := StopTunnel(w, Some(h));
      StopRepeatedlyIsStopOnce(w', h, n - 1);
      StopIdempotent(w, Some(h));
    }
  }

  /** A tunnel started in a well-formed process and then stopped one or more
      times: its stack and device each appear closed exactly once in the whole
      log, the teardown follows the start with nothing in between, both slots
      end empty while the output callback still names the closed device. */
  lemma {:induction false} StartThenStopsClosesOnce(w: World, fd: int, host: string, port: int, n: nat)
    requires Inv(w)
    requires ValidEndpoint(host, port)
    requires n >= 1
    ensures var o := StartSocksTunnel(w, fd, host, port, true);
            var k := o.result.value;
            var f := StopRepeatedly(o.world, k, n);
            && Count(f.log, CloseStack(w.nextStack)) == 1
            && Count(f.log, CloseDev(w.nextDev)) == 1
            && f.log == o.world.log + [ClearTcp, ClearUdp, CloseStack(w.nextStack), CloseDev(w.nextDev)]
            && !f.handles[k].started
            && f.g.tcp == None && f.g.udp == None
            && f.g.output == Some(w.nextDev)
  {
    var o := StartSocksTunnel(w, fd, host, port, true);
    var k := o.result.value;
    var s, d := w.nextStack, w.nextDev;
    var hd := Handle(true, Some(s), Some(d));
    assert o.world.handles[k] == hd;
    StopRepeatedlyIsStopOnce(o.world, k, n);
    var f := StopRepeatedly(o.world, k, n);
    assert f == StopTunnel(o.world, Some(k));
    var tail := [ClearTcp, ClearUdp, CloseStack(s), CloseDev(d)];
    assert StopTrace(hd) == tail;
    var trace := StartTrace(s, d, host, port as uint16);
    assert f.log == w.log + trace + tail;
    ClosesOfFreshResources(w);
    LogClosesOnce(w.log, trace, tail, s, d);
  }

  /** In a well-formed process the next stack and device to be allocated
      appear in no close of the log. */
  lemma ClosesOfFreshResources(w: World)
    requires Inv(w)
    ensures Count(w.log, CloseStack(w.nextStack)) == 0
    ensures Count(w.log, CloseDev(w.nextDev)) == 0
  {
    ReplayCountsStackCloses(w.log, w.nextStack);
    ReplayCountsDevCloses(w.log, w.nextDev);
  }

  /** Closes counted over a log extended by a start trace and a stop trace. */
  lemma LogClosesOnce(log: seq<Effect>, trace: seq<Effect>, tail: seq<Effect>, s: StackId, d: DevId)
    requires Count(log, CloseStack(s)) == 0 && Count(log, CloseDev(d)) == 0
    requires forall e :: e in trace ==> !e.CloseStack? && !e.CloseDev?
    requires tail == [ClearTcp, ClearUdp, CloseStack(s), CloseDev(d)]
    ensures Count(log + trace + tail, CloseStack(s)) == 1
    ensures Count(log + trace + tail, CloseDev(d)) == 1
  {
    CountAppend(log + trace, tail, CloseStack(s));
    CountAppend(log, trace, CloseStack(s));
    CountAppend(log + trace, tail, CloseDev(d));
    CountAppend(log, trace, CloseDev(d));
    CountIsMultiplicity(trace, CloseStack(s));
    CountIsMultiplicity(trace, CloseDev(d));
    CountIsMultiplicity(tail, CloseStack(s));
    CountIsMultiplicity(tail, CloseDev(d));
    assert CloseStack(s) !in trace && CloseDev(d) !in trace;
  }

  /** The sharp edge of the process-wide slots: starting tunnel B after tunnel
      A replaces both of A's handlers with B's; stopping A then unregisters B's
      handlers too, although B stays started and its stack and device stay open. */
  lemma StopClearsReplacedHandlers(w: World, fdA: int, hostA: string, portA: int,
                                   fdB: int, hostB: string, portB: int)
    requires Inv(w)
    requires ValidEndpoint(hostA, portA) && ValidEndpoint(hostB, portB)
    ensures var a := StartSocksTunnel(w, fdA, hostA, portA, true);
            var b := StartSocksTunnel(a.world, fdB, hostB, portB, true);
            var r := StopTunnel(b.world, Some(a.result.value));
            && b.world.g.tcp == Some(TcpHandler(hostB, portB as uint16))
            && b.world.g.udp == Some(UdpHandler(hostB, portB as uint16, UdpTimeout))
            && r.g.tcp == None && r.g.udp == None
            && r.handles[b.result.value].started
            && Lookup(r.g.stackCloses, a.world.nextStack) == 0
            && Lookup(r.g.devCloses, a.world.nextDev) == 0
  {
  }

  /** One call leaves handle `k` owning the same stack and device; it stops
      the handle exactly when it is a stop of `k` made while `k` is started,
      and only then does it close that stack and that device, once each. */
  lemma StepTracksHandle(w: World, c: Call, k: HandleRef, s: StackId, d: DevId)
    requires Inv(w)
    requires CallPossible(w, c)
    requires k < |w.handles|
    requires w.handles[k].stack == Some(s) && w.handles[k].dev == Some(d)
    ensures var w' := Step(w, c);
            var stops := w.handles[k].started && c == StopCall(Some(k));
            && k < |w'.handles|
            && w'.handles[k].stack == Some(s) && w'.handles[k].dev == Some(d)
            && w'.handles[k].started == (w.handles[k].started && !stops)
            && Lookup(w'.g.stackCloses, s) == Lookup(w.g.stackCloses, s) + (if stops then 1 else 0)
            && Lookup(w'.g.devCloses, d) == Lookup(w.g.devCloses, d) + (if stops then 1 else 0)
  {
    match c
    case StartCall(fd, host, port, wrapOk) =>
    case StopCall(h) =>
      if h.Some? && h.value != k && w.handles[h.value].started {
        var j := h.value;
        if j < k {
          assert w.handles[j].stack != w.handles[k].stack && w.handles[j].dev != w.handles[k].dev;
        } else {
          assert w.handles[k].stack != w.handles[j].stack && w.handles[k].dev != w.handles[j].dev;
        }
      }
  }

  /** Handle `k` through a whole call sequence: it keeps its stack and device,
      is started at the end exactly when it was started and no call stopped it,
      and its resources end closed once if it was stopped while started, and
      otherwise as often as before. */
  lemma {:induction false} RunTracksHandle(w: World, calls: seq<Call>, k: HandleRef, s: StackId, d: DevId)
    requires Inv(w)
    requires Runnable(w, calls)
    requires k < |w.handles|
    requires w.handles[k].stack == Some(s) && w.handles[k].dev == Some(d)
    ensures var f := Run(w, calls);
            var stopped := w.handles[k].started && StopCall(Some(k)) in calls;
            && k < |f.handles|
            && f.handles[k].stack == Some(s) && f.handles[k].dev == Some(d)
            && f.handles[k].started == (w.handles[k].started && StopCall(Some(k)) !in calls)
            && Lookup(f.g.stackCloses, s) == (if stopped then 1 else Lookup(w.g.stackCloses, s))
            && Lookup(f.g.devCloses, d) == (if stopped then 1 else Lookup(w.g.devCloses, d))
    decreases |calls|
  {
    if |calls| > 0 {
      var c := calls[0];
      assert calls == [c] + calls[1..];
      assert HandleOwns(w, w.handles[k]);
      StepTracksHandle(w, c, k, s, d);
      StepPreservesInv(w, c);
      RunTracksHandle(Step(w, c), calls[1..], k, s, d);
    }
  }

  /** Exactly-once teardown with any calls in between: once a started tunnel's
      handle is stopped somewhere in a call sequence (other tunnels started and
      stopped, this one stopped again, before or after), its stack and its
      device each appear closed exactly once in the whole log, and the handle
      ends stopped. */
  lemma StoppedInRunClosesOnce(w: World, calls: seq<Call>, k: HandleRef)
    requires Inv(w)
    requires Runnable(w, calls)
    requires k < |w.handles| && w.handles[k].started
    requires StopCall(Some(k)) in calls
    ensures var f := Run(w, calls);
            var hd := w.handles[k];
            && hd.stack.Some? && hd.dev.Some?
            && k < |f.handles| && !f.handles[k].started
            && Count(f.log, CloseStack(hd.stack.value)) == 1
            && Count(f.log, CloseDev(hd.dev.value)) == 1
  {
    var hd := w.handles[k];
    assert HandleOwns(w, hd);
    var s, d := hd.stack.value, hd.dev.value;
    RunTracksHandle(w, calls, k, s, d);
    RunPreservesInv(w, calls);
    var f := Run(w, calls);
    ReplayCountsStackCloses(f.log, s);
    ReplayCountsDevCloses(f.log, d);
  }
}
