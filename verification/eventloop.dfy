/**
 * main: the start-up checks, the template, and the event loop that
 * toggles the popup on F1.
 *
 * The loop's state is whether a popup cycle is under way (`serving`) and
 * the result text, if any. Each event yields the next state and the one
 * call into X the program makes for it.
 */
module EventLoop {
  import opened Strings
  import Template
  import Runner
  import Selection
  import Placement

  /** The keysym of F1. */
  const XK_F1: int := 0xFFBE

  /** The process's exit status for failure. */
  const ExitFailure: int := 1

  /**
   * How start-up ends: with an exit status, with the process dying on the
   * missing font, or in the event loop with a template.
   */
  datatype Launch =
    | MissingArgument
    | ShowHelp
    | NoDisplay
    | NoFont
    | NoGrab
    | Serve(template: string)

  /**
   * The start of main: the first argument is required; `-h` prints the
   * help; otherwise the template is made from it, then the display must
   * open, the font must load, and F1 must be grabbed. A font that does not
   * load is not checked for: its null result is dereferenced when the
   * graphics context takes the font.
   */
  function Start(args: seq<string>, displayOpened: bool, fontLoaded: bool, grabbed: bool): (l: Launch)
    ensures l.MissingArgument? <==> args == []
    ensures l.ShowHelp? <==> args != [] && args[0] == "-h"
    ensures l.NoFont? <==> args != [] && args[0] != "-h" && displayOpened && !fontLoaded
    ensures l.Serve? <==> args != [] && args[0] != "-h" && displayOpened && fontLoaded && grabbed
    ensures l.Serve? ==> Template.FindPlaceholder(l.template).Some?
    ensures l.Serve? ==> l.template == Template.EffectiveTemplate(args[0])
  {
    if |args| < 1 then MissingArgument
    else if args[0] == "-h" then ShowHelp
    else
      var template := Template.EffectiveTemplate(args[0]);
      if !displayOpened then NoDisplay
      else if !fontLoaded then NoFont
      else if !grabbed then NoGrab
      else Serve(template)
  }

  /**
   * The exit status of a start-up that ends the process; none when the
   * process dies on the missing font instead of exiting.
   */
  function ExitStatus(l: Launch): (status: Option<int>)
    requires !l.Serve?
    ensures status == Some(0) <==> l.ShowHelp?
    ensures status.None? <==> l.NoFont?
  {
    if l.ShowHelp? then Some(0)
    else if l.NoFont? then None
    else Some(ExitFailure)
  }

  /**
   * The program's argument and strerror, fixed for the life of the loop;
   * the template is made from the argument once.
   */
  datatype Config = Config(argument: string, strerror: int -> ErrorText)

  /**
   * The events the loop tells apart. A SelectionNotify carries what the
   * program learns while handling it: the property read, what running the
   * command did, and the pointer and window geometry.
   */
  datatype Event =
    | KeyPress(keysym: int, modifiers: int)
    | KeyRelease
    | Expose
    | SelectionNotify(reply: Selection.PropertyReply, run: Runner.Spawn, geometry: Placement.Geometry)
    | Other(eventType: int)

  datatype State = State(serving: bool, result: Option<string>)

  const Initial: State := State(false, None)

  /** The X call the program makes for an event, if any. */
  datatype Action =
    | RequestSelection          // XConvertSelection of PRIMARY as STRING
    | MoveAndMap(at: Placement.Point)
    | Unmap
    | Draw(text: string)
    | NoAction

  datatype Transition = Transition(next: State, action: Action)

  /** F1 with no modifier held: the only key the loop acts on. */
  predicate IsToggle(ev: Event) {
    ev.KeyPress? && ev.keysym == XK_F1 && ev.modifiers == 0
  }

  /** A SelectionNotify whose property read the program accepts. */
  predicate Accepted(ev: Event) {
    ev.SelectionNotify? && Selection.GetSelection(ev.reply).Some?
  }

  /**
   * One pass of the loop, as written: F1 hides a shown popup or asks for
   * the selection; a SelectionNotify runs the command and shows the popup
   * whatever `serving` is; Expose redraws a present result.
   */
  function Step(cfg: Config, st: State, ev: Event): (t: Transition)
    ensures t.action == RequestSelection ==> !st.serving && t.next.serving
    ensures t.action == Unmap ==> st.serving && t.next == State(false, None)
    ensures t.action.Draw? ==> st.result == Some(t.action.text) && t.next == st
    ensures t.action.MoveAndMap? ==> t.next.result.Some? && t.next.serving == st.serving
    ensures t.action == NoAction ==> !t.next.serving || t.next == st
  {
    match ev
    case KeyPress(keysym, modifiers) =>
      if keysym == XK_F1 && modifiers == 0 then
        if st.serving then Transition(State(false, None), Unmap)
        else Transition(State(true, st.result), RequestSelection)
      else Transition(st, NoAction)
    case SelectionNotify(reply, run, geometry) =>
      (match Selection.GetSelection(reply)
       case None => Transition(State(false, st.result), NoAction)
       case Some(selection) =>
         (match Runner.RunCommand(Template.EffectiveTemplate(cfg.argument), selection, run, cfg.strerror)
          case None => Transition(State(false, None), NoAction)
          case Some(text) => Transition(State(st.serving, Some(text)), MoveAndMap(Placement.PlaceAsWritten(geometry)))))
    case KeyRelease => Transition(st, NoAction)
    case Expose =>
      if st.result.Some? then Transition(st, Draw(st.result.value)) else Transition(st, NoAction)
    case Other(_) => Transition(st, NoAction)
  }

  /** No SelectionNotify among the events. */
  predicate Quiet(events: seq<Event>) {
    forall i :: 0 <= i < |events| ==> !events[i].SelectionNotify?
  }

  /**
   * The state after a sequence of events. Only a SelectionNotify brings a
   * result: without one the result stays as it was or is dropped, and a
   * result held only during a cycle stays so.
   */
  function Run(cfg: Config, st: State, events: seq<Event>): (r: State)
    ensures Quiet(events) ==> r.result == st.result || r.result.None?
    ensures Quiet(events) && Coherent(st) ==> Coherent(r)
    decreases |events|
  {
    if events == [] then st else Run(cfg, Step(cfg, st, events[0]).next, events[1..])
  }

  /** A run that is not over takes its first event. */
  lemma RunFirst(cfg: Config, st: State, events: seq<Event>)
    requires events != []
    ensures Run(cfg, st, events) == Run(cfg, Step(cfg, st, events[0]).next, events[1..])
  {
  }

  /** Three events run one after the other. */
  lemma RunThree(cfg: Config, st: State, a: Event, b: Event, c: Event)
    ensures Run(cfg, st, [a, b, c]) ==
      Step(cfg, Step(cfg, Step(cfg, st, a).next, b).next, c).next
  {
    var s1 := Step(cfg, st, a).next;
    var s2 := Step(cfg, s1, b).next;
    var s3 := Step(cfg, s2, c).next;
    RunFirst(cfg, st, [a, b, c]);
    assert [a, b, c][1..] == [b, c];
    RunFirst(cfg, s1, [b, c]);
    assert [b, c][1..] == [c];
    RunFirst(cfg, s2, [c]);
    assert [c][1..] == [];
    assert Run(cfg, s3, []) == s3;
  }

  /** F1 while serving ends the cycle: hide the popup, drop the result. */
  lemma ToggleWhileServing(cfg: Config, st: State, ev: Event)
    requires IsToggle(ev) && st.serving
    ensures Step(cfg, st, ev) == Transition(State(false, None), Unmap)
  {
  }

  /** F1 while idle starts a cycle: ask for the selection. */
  lemma ToggleWhileIdle(cfg: Config, st: State, ev: Event)
    requires IsToggle(ev) && !st.serving
    ensures Step(cfg, st, ev) == Transition(State(true, st.result), RequestSelection)
  {
  }

  /** Any other key press, or F1 with a modifier, changes nothing. */
  lemma OtherKeysIgnored(cfg: Config, st: State, ev: Event)
    requires ev.KeyPress? && !IsToggle(ev)
    ensures Step(cfg, st, ev) == Transition(st, NoAction)
  {
  }

  /** A selection the program cannot accept ends the cycle and keeps the result as it was. */
  lemma RefusedSelectionStops(cfg: Config, st: State, ev: Event)
    requires ev.SelectionNotify? && !Accepted(ev)
    ensures Step(cfg, st, ev) == Transition(State(false, st.result), NoAction)
  {
  }

  /**
   * An accepted selection always yields a result, so the program's branch
   * for a failed run never changes `serving`; the popup is placed and
   * shown with the command's text.
   */
  lemma AcceptedSelectionShows(cfg: Config, st: State, ev: Event)
    requires Accepted(ev)
    ensures var t := Step(cfg, st, ev);
      && t.next.serving == st.serving
      && t.next.result == Runner.RunCommand(Template.EffectiveTemplate(cfg.argument), Selection.GetSelection(ev.reply).value, ev.run, cfg.strerror)
      && t.action == MoveAndMap(Placement.PlaceAsWritten(ev.geometry))
  {
  }

  /** Expose draws exactly when there is a result, and draws that result. */
  lemma ExposeDrawsResult(cfg: Config, st: State)
    ensures Step(cfg, st, Expose).next == st
    ensures Step(cfg, st, Expose).action.Draw? <==> st.result.Some?
    ensures st.result.Some? ==> Step(cfg, st, Expose).action == Draw(st.result.value)
  {
  }

  /** F1, an accepted selection, F1: back to idle with no result. */
  lemma ToggleShowToggle(cfg: Config, st: State, f1: Event, notify: Event, f1again: Event)
    requires !st.serving
    requires IsToggle(f1) && Accepted(notify) && IsToggle(f1again)
    ensures Run(cfg, st, [f1, notify, f1again]) == State(false, None)
  {
    RunThree(cfg, st, f1, notify, f1again);
    var s1 := Step(cfg, st, f1).next;
    assert s1.serving;
    AcceptedSelectionShows(cfg, s1, notify);
  }

  /** A result is present only during a cycle. */
  predicate Coherent(st: State) {
    st.result.Some? ==> st.serving
  }

  /**
   * As written the loop loses that: a second F1 before the selection
   * arrives ends the cycle, and the late SelectionNotify still shows the
   * popup, now with `serving` false, so the next F1 asks for the
   * selection again instead of hiding it.
   */
  lemma LateSelectionShowsStalePopup(cfg: Config, f1: Event, notify: Event)
    requires IsToggle(f1) && Accepted(notify)
    ensures Step(cfg, State(false, None), notify).action.MoveAndMap?
    ensures var st := Run(cfg, Initial, [f1, f1, notify]);
      !st.serving && st.result.Some? && !Coherent(st)
    ensures Step(cfg, Run(cfg, Initial, [f1, f1, notify]), f1).action == RequestSelection
  {
    RunThree(cfg, Initial, f1, f1, notify);
    var s1 := Step(cfg, Initial, f1).next;
    assert s1 == State(true, None);
    assert Step(cfg, s1, f1).next == State(false, None);
    AcceptedSelectionShows(cfg, State(false, None), notify);
  }

  /** A cycle is under way and its result has not arrived yet. */
  predicate Awaiting(st: State) {
    st.serving && st.result.None?
  }

  /**
   * The loop with a SelectionNotify acted on only while a cycle awaits
   * it, the selection quoted and escaped when the program appends it, and
   * the border counted at the right edge.
   */
  function GuardedStep(cfg: Config, st: State, ev: Event): (t: Transition)
    ensures Coherent(st) ==> Coherent(t.next)
    ensures t.action.MoveAndMap? ==> Awaiting(st) && t.next.serving
    ensures Coherent(st) && t.action.Draw? ==> st.serving
    ensures ev.SelectionNotify? && !Awaiting(st) ==> t == Transition(st, NoAction)
  {
    match ev
    case KeyPress(keysym, modifiers) =>
      if keysym == XK_F1 && modifiers == 0 then
        if st.serving then Transition(State(false, None), Unmap)
        else Transition(State(true, st.result), RequestSelection)
      else Transition(st, NoAction)
    case SelectionNotify(reply, run, geometry) =>
      if !Awaiting(st) then Transition(st, NoAction)
      else
        (match Selection.GetSelection(reply)
         case None => Transition(State(false, None), NoAction)
         case Some(selection) =>
           (match Runner.SafeRunCommand(cfg.argument, selection, run, cfg.strerror)
            case None => Transition(State(false, None), NoAction)
            case Some(text) => Transition(State(true, Some(text)), MoveAndMap(Placement.Place(geometry)))))
    case KeyRelease => Transition(st, NoAction)
    case Expose =>
      if st.result.Some? then Transition(st, Draw(st.result.value)) else Transition(st, NoAction)
    case Other(_) => Transition(st, NoAction)
  }

  /** Away from SelectionNotify the corrected loop is the loop as written. */
  lemma GuardedAgreesOffNotify(cfg: Config, st: State, ev: Event)
    requires !ev.SelectionNotify?
    ensures GuardedStep(cfg, st, ev) == Step(cfg, st, ev)
  {
  }

  function GuardedRun(cfg: Config, st: State, events: seq<Event>): State
    decreases |events|
  {
    if events == [] then st else GuardedRun(cfg, GuardedStep(cfg, st, events[0]).next, events[1..])
  }

  lemma GuardedRunFirst(cfg: Config, st: State, events: seq<Event>)
    requires events != []
    ensures GuardedRun(cfg, st, events) == GuardedRun(cfg, GuardedStep(cfg, st, events[0]).next, events[1..])
  {
  }

  /** Whatever events arrive, the corrected loop keeps results within cycles. */
  lemma {:induction false} GuardedRunCoherent(cfg: Config, st: State, events: seq<Event>)
    requires Coherent(st)
    ensures Coherent(GuardedRun(cfg, st, events))
    decreases |events|
  {
    if events != [] {
      GuardedRunCoherent(cfg, GuardedStep(cfg, st, events[0]).next, events[1..]);
    }
  }

  /** The corrected loop shows nothing for the late SelectionNotify. */
  lemma GuardedIgnoresLateSelection(cfg: Config, f1: Event, notify: Event)
    requires IsToggle(f1) && Accepted(notify)
    ensures GuardedRun(cfg, Initial, [f1, f1, notify]) == Initial
  {
    var s1 := GuardedStep(cfg, Initial, f1).next;
    assert s1 == State(true, None);
    assert GuardedStep(cfg, s1, f1).next == Initial;
    GuardedRunFirst(cfg, Initial, [f1, f1, notify]);
    assert [f1, f1, notify][1..] == [f1, notify];
    GuardedRunFirst(cfg, s1, [f1, notify]);
    assert [f1, notify][1..] == [notify];
    GuardedRunFirst(cfg, Initial, [notify]);
    assert [notify][1..] == [];
  }
}
