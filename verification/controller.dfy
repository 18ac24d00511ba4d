/** The controller input classifier: each joystick event yields at most one
    navigation command, and the device list is rebuilt when the number of
    connected devices changes. Polling, sleeping and pygame itself are
    outside the model. */
module Controller {
  import opened Optional

  datatype Event =
    | ButtonDown(button: int)
    | AxisMotion(axis: int, value: real)
    | OtherEvent

  datatype Command = Select | Back | Up | Down | Left | Right

  /** The string passed to the input callback. */
  function CommandName(c: Command): string {
    match c
    case Select => "SELECT"
    case Back => "BACK"
    case Up => "UP"
    case Down => "DOWN"
    case Left => "LEFT"
    case Right => "RIGHT"
  }

  /** The event-to-command rules of `_poll_inputs`. */
  function Classify(e: Event): (r: Option<Command>)
    ensures e.OtherEvent? ==> r.None?
    ensures e.ButtonDown? && r.Some? ==> r.value == Select || r.value == Back
    ensures e.AxisMotion? && r.Some? ==>
      && (e.value > 0.5 || e.value < -0.5)
      && r.value != Select && r.value != Back
  {
    match e
    case ButtonDown(b) =>
      if b == 0 then Some(Select) else if b == 1 then Some(Back) else None
    case AxisMotion(axis, v) =>
      if axis == 1 then (if v > 0.5 then Some(Down) else if v < -0.5 then Some(Up) else None)
      else if axis == 0 then (if v > 0.5 then Some(Right) else if v < -0.5 then Some(Left) else None)
      else None
    case OtherEvent => None
  }

  /** Each command arises from exactly one kind of event, and every other
      event (other buttons, other axes, a stick within the dead zone
      [-0.5, 0.5], any other event type) yields nothing. */
  lemma ClassifyCases(e: Event)
    ensures Classify(e) == Some(Select) <==> e == ButtonDown(0)
    ensures Classify(e) == Some(Back) <==> e == ButtonDown(1)
    ensures Classify(e) == Some(Down) <==> e.AxisMotion? && e.axis == 1 && e.value > 0.5
    ensures Classify(e) == Some(Up) <==> e.AxisMotion? && e.axis == 1 && e.value < -0.5
    ensures Classify(e) == Some(Right) <==> e.AxisMotion? && e.axis == 0 && e.value > 0.5
    ensures Classify(e) == Some(Left) <==> e.AxisMotion? && e.axis == 0 && e.value < -0.5
    ensures Classify(e).None? <==>
      || e.OtherEvent?
      || (e.ButtonDown? && e.button != 0 && e.button != 1)
      || (e.AxisMotion? && ((e.axis != 0 && e.axis != 1) || -0.5 <= e.value <= 0.5))
  {
  }

  /** The callback sees different strings for different commands. */
  lemma CommandNamesDistinct(a: Command, b: Command)
    ensures CommandName(a) == CommandName(b) ==> a == b
  {
  }

  /** The commands a batch of events produces, in event order. */
  function Commands(events: seq<Event>): (r: seq<Command>)
    ensures |r| <= |events|
    ensures forall c :: c in r <==> exists i :: 0 <= i < |events| && Classify(events[i]) == Some(c)
  {
    if events == [] then []
    else
      var rest := Commands(events[1..]);
      assert forall i :: 0 <= i < |events| - 1 ==> events[1..][i] == events[i + 1];
      match Classify(events[0])
      case Some(c) => [c] + rest
      case None => rest
  }

  /** A single event produces its own command, or nothing. */
  lemma CommandsOne(e: Event)
    ensures Commands([e]) == (if Classify(e).Some? then [Classify(e).value] else [])
  {
    assert [e][1..] == [];
  }

  /** Commands of consecutive batches come out in order. */
  lemma {:induction false} CommandsConcat(a: seq<Event>, b: seq<Event>)
    ensures Commands(a + b) == Commands(a) + Commands(b)
    decreases |a|
  {
    if a == [] {
      assert a + b == b;
    } else {
      assert (a + b)[1..] == a[1..] + b;
      CommandsConcat(a[1..], b);
    }
  }

  /** The device list check at the top of every poll. Each device is
      represented by its index. */
  function RefreshJoysticks(joysticks: seq<nat>, count: nat): (r: seq<nat>)
    ensures |r| == count
    ensures count == |joysticks| ==> r == joysticks
    ensures count != |joysticks| ==> forall i :: 0 <= i < count ==> r[i] == i
  {
    if count != |joysticks| then seq(count, i => i) else joysticks
  }

  datatype PollResult = PollResult(joysticks: seq<nat>, commands: seq<Command>)

  /** One pass of the polling loop: refresh the device list, then classify
      the pending events. */
  function PollOnce(joysticks: seq<nat>, count: nat, events: seq<Event>): (r: PollResult)
    ensures |r.joysticks| == count
    ensures count == |joysticks| ==> r.joysticks == joysticks
    ensures count != |joysticks| ==> forall i :: 0 <= i < count ==> r.joysticks[i] == i
    ensures |r.commands| <= |events|
    ensures forall c :: c in r.commands <==> exists i :: 0 <= i < |events| && Classify(events[i]) == Some(c)
  {
    PollResult(RefreshJoysticks(joysticks, count), Commands(events))
  }

  /** A second poll with an unchanged device count keeps the device list. */
  lemma RefreshStable(joysticks: seq<nat>, count: nat)
    ensures RefreshJoysticks(RefreshJoysticks(joysticks, count), count) == RefreshJoysticks(joysticks, count)
  {
  }

  /** Two polls with the device count unchanged in between leave the device
      list as the first one made it, and report the commands of both batches
      in order, as one poll of all the events would. */
  lemma {:induction false} PollTwice(joysticks: seq<nat>, count: nat, first: seq<Event>, second: seq<Event>)
    ensures var r1 := PollOnce(joysticks, count, first);
      var r2 := PollOnce(r1.joysticks, count, second);
      && r2.joysticks == r1.joysticks
      && r1.commands + r2.commands == PollOnce(joysticks, count, first + second).commands
  {
    RefreshStable(joysticks, count);
    CommandsConcat(first, second);
  }
}
