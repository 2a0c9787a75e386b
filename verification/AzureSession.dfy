/** What a session of the VPN Azure client takes: service begins exactly if every exchange before it has worked. */
module AzureSession {
  import opened Text
  import opened AzureProtocol
  import opened AzureSafety
  import opened AzureBackoff

  /** An exchange on the main thread's socket, which must be open still. */
  predicate Exchanges(s: State, ok: bool) {
    ok && s.main.sock < |s.socks| && !s.socks[s.main.sock].freed && !s.socks[s.main.sock].disconnected
  }

  /**
   How many of the five conditions of a session hold after this step, `k` before it, counted from the last
   attempt to connect: the relay accepted the connection; it sent its parameters; the host name that was
   read is still the current one; the registration was answered; the client had not been halted. A session
   lasts until an exchange fails or the client is halted.
   */
  function Passed(k: nat, s: State, e: Event): nat {
    if !e.MainStep? then k
    else match s.main.pc
      case Connect => if e.ok then 1 else 0
      case RecvParam => if k == 1 && Exchanges(s, e.ok) then 2 else 0
      case Recheck => if k == 2 && SameName(s.main.st.hostName, s.shared.status.hostName) then 3 else 0
      case Register => if k == 3 && Exchanges(s, e.ok) then 4 else 0
      case ReadHalt => if k == 4 && !s.shared.halt then 5 else 0
      case ServeHalt => if k == 5 && !s.shared.halt then 5 else 0
      case ServeIo => if k == 5 && Exchanges(s, e.ok) then 5 else 0
      case _ => k
  }

  function PassedIn(k: nat, s: State, events: seq<Event>): nat
    decreases |events|
  {
    if events == [] then k else PassedIn(Passed(k, s, events[0]), Step(s, events[0]), events[1..])
  }

  /** Where the main thread is when so many hold. */
  predicate IsAt(k: nat, m: MainThread) {
    && (k == 1 <==> m.pc.Publish? || m.pc.RecvParam?)
    && (k == 2 <==> m.pc.StoreParam? || m.pc.Recheck?)
    && (k == 3 <==> m.pc.Register? && !m.hostChanged)
    && (k == 4 <==> m.pc.ReadHalt?)
    && (k == 5 <==> m.pc.ServeHalt? || m.pc.ServeIo?)
    && k <= 5
  }

  lemma StepKeepsPlace(k: nat, s: State, e: Event)
    requires IsAt(k, s.main)
    ensures IsAt(Passed(k, s, e), Step(s, e).main)
  {
    if e.MainStep? {
      MainIsNext(s, e);
      hide SameName, IsEmptyStr, TimerDue, FireTimer, SnapshotChanged, Step, StepMain, SockEffect, NextShared;
    } else {
      hide IsAt;
      OthersLeaveMain(s, e);
    }
  }

  lemma MainIsNext(s: State, e: Event)
    requires e.MainStep?
    ensures Step(s, e).main == NextMain(s.main, s.shared, s.clock, Works(s, e.ok), e.rnd, |s.socks|)
  {
    hide NextMain, Works, NextShared;
  }

  lemma {:induction false} RunKeepsPlace(k: nat, s: State, events: seq<Event>)
    requires IsAt(k, s.main)
    ensures IsAt(PassedIn(k, s, events), Run(s, events).main)
    decreases |events|
  {
    hide IsAt, Step, Passed;
    if events != [] {
      StepKeepsPlace(k, s, events[0]);
      RunKeepsPlace(Passed(k, s, events[0]), Step(s, events[0]), events[1..]);
    }
  }

  /** In every run the client is served exactly if all five conditions have been met since the last attempt to
      connect; its name is registered only after the first three, and parameters are read after the first. */
  lemma ServedExactlyIfAllWorked(clock: nat, events: seq<Event>)
    ensures var k, m := PassedIn(0, Init(clock), events), Run(Init(clock), events).main;
            && (Serving(m) <==> k == 5)
            && (m.pc.ReadHalt? <==> k == 4)
            && (m.pc.Register? && !m.hostChanged <==> k == 3)
            && (m.pc.StoreParam? || m.pc.Recheck? <==> k == 2)
            && (m.pc.Publish? || m.pc.RecvParam? <==> k == 1)
  {
    RunKeepsPlace(0, Init(clock), events);
  }
}
