/**
  Control: the global `running` flag of v1.1 and v1.2 and the two button
  handlers that flip it. `start_awareness_bell` sets it only when it is clear
  (and then launches the bell loop); `stop_awareness_bell` clears it only when
  it is set. The message boxes are not modelled; the acknowledgement says which
  of the two branches ran.
 */
module Control {

  datatype Ack = Transitioned | AlreadyInState

  datatype Command = Start | Stop

  /** One button press: the new value of `running` and the acknowledgement.
      The flag ends up set exactly after Start, and the press transitions
      exactly when the flag was not already in the requested state. */
  function Press(running: bool, cmd: Command): (r: (bool, Ack))
    ensures r.0 <==> cmd.Start?
    ensures r.1 == Transitioned <==> running != cmd.Start?
  {
    match cmd
    case Start => if !running then (true, Transitioned) else (true, AlreadyInState)
    case Stop => if running then (false, Transitioned) else (false, AlreadyInState)
  }

  /** Pressing the same button twice: the second press changes nothing and
      reports that the flag already was in the requested state. */
  lemma PressIdempotent(running: bool, cmd: Command)
    ensures Press(Press(running, cmd).0, cmd) == (Press(running, cmd).0, AlreadyInState)
  {
  }

  /** The flag after a series of presses, starting from `running`. */
  function PressAll(running: bool, cmds: seq<Command>): (r: bool)
    ensures cmds == [] ==> r == running
    decreases cmds
  {
    if cmds == [] then running else PressAll(Press(running, cmds[0]).0, cmds[1..])
  }

  /** The controller is a two-state machine whose state is decided by the last
      press alone: whatever came before, the flag is set exactly when the last
      button pressed was Start. */
  lemma {:induction false} LastPressDecides(running: bool, cmds: seq<Command>)
    requires cmds != []
    ensures PressAll(running, cmds) <==> cmds[|cmds| - 1].Start?
    decreases cmds
  {
    if |cmds| > 1 {
      LastPressDecides(Press(running, cmds[0]).0, cmds[1..]);
      assert cmds[1..][|cmds[1..]| - 1] == cmds[|cmds| - 1];
    }
  }

  /** The number of presses that report Transitioned. */
  function Transitions(running: bool, cmds: seq<Command>): (n: nat)
    ensures n <= |cmds|
    decreases cmds
  {
    if cmds == [] then 0
    else (if Press(running, cmds[0]).1 == Transitioned then 1 else 0)
         + Transitions(Press(running, cmds[0]).0, cmds[1..])
  }

  /** The number of presses that launch a bell loop: Start while clear. */
  function Launches(running: bool, cmds: seq<Command>): (n: nat)
    ensures n <= Transitions(running, cmds)
    decreases cmds
  {
    if cmds == [] then 0
    else (if cmds[0].Start? && !running then 1 else 0)
         + Launches(Press(running, cmds[0]).0, cmds[1..])
  }

  function Bit(b: bool): nat { if b then 1 else 0 }

  /** A counting identity over the flag: the presses that transition are the
      Starts that find the flag clear, counted twice, corrected by the state
      at the two ends. It says nothing about how many loop threads are alive,
      since a loop that has not yet checked the flag outlives a Stop. */
  lemma {:induction false} TransitionsAlternate(running: bool, cmds: seq<Command>)
    ensures Transitions(running, cmds) + Bit(PressAll(running, cmds))
         == 2 * Launches(running, cmds) + Bit(running)
    decreases cmds
  {
    if cmds != [] {
      TransitionsAlternate(Press(running, cmds[0]).0, cmds[1..]);
    }
  }

  /** The `running` flag and its two handlers. */
  class Controller {
    var running: bool

    /** The module-level `running = False`. */
    constructor ()
      ensures !running
    {
      running := false;
    }

    /** `start_awareness_bell`: sets the flag if it was clear (and the source
        then starts the loop thread); otherwise reports "already running". */
    method Start() returns (ack: Ack)
      modifies this
      ensures (running, ack) == Press(old(running), Command.Start)
      ensures running
      ensures ack == Transitioned <==> !old(running)
    {
      if !running {
        running := true;
        ack := Transitioned;
      } else {
        ack := AlreadyInState;
      }
    }

    /** `stop_awareness_bell`: clears the flag if it was set; otherwise
        reports "not running". */
    method Stop() returns (ack: Ack)
      modifies this
      ensures (running, ack) == Press(old(running), Command.Stop)
      ensures !running
      ensures ack == Transitioned <==> old(running)
    {
      if running {
        running := false;
        ack := Transitioned;
      } else {
        ack := AlreadyInState;
      }
    }
  }

  /** Two presses of Start, then two of Stop, on a fresh controller. */
  method StartStopTwice() returns (acks: seq<Ack>, running: bool)
    ensures acks == [Transitioned, AlreadyInState, Transitioned, AlreadyInState]
    ensures !running
  {
    var c := new Controller();
    var a1 := c.Start();
    var a2 := c.Start();
    assert c.running;
    var a3 := c.Stop();
    var a4 := c.Stop();
    acks, running := [a1, a2, a3, a4], c.running;
  }
}
