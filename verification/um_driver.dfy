/** The host loop `run_cpu` (src/main.rs:23-37), driven by a list of input
    lines instead of a terminal. `InputReader::next_line` is the next
    element of `lines`; when the list is used up the session ends. The
    unbounded loop is bounded by `fuel`, counted in `execute` calls.
 */
module Driver {
  import opened Words
  import opened Cpu
  import CpuLemmas

  /** What the host observes: each `execute` result, and each line it
      passes to `push_str`. */
  datatype Event = Executed(code: ExitCode) | Pushed(line: seq<u8>)

  datatype Ending = Finished | InputExhausted | Failed(fault: Fault) | FuelExhausted

  datatype Session = Session(events: seq<Event>, ending: Ending)

  /** The lines handed to `push_str`, in order. */
  function PushedLines(ev: seq<Event>): (ls: seq<seq<u8>>)
    ensures |ls| <= |ev|
  {
    if ev == [] then []
    else (if ev[0].Pushed? then [ev[0].line] else []) + PushedLines(ev[1..])
  }

  /** The bytes printed, in order. */
  function Printed(ev: seq<Event>): seq<u8> {
    if ev == [] then []
    else (if ev[0].Executed? && ev[0].code.Output? then [ev[0].code.byte] else []) + Printed(ev[1..])
  }

  /** The host protocol: a line is pushed exactly right after a NeedInput,
      every NeedInput that is not the last event is answered by a push,
      and nothing follows Halted. */
  ghost predicate Protocol(ev: seq<Event>) {
    && (forall i {:trigger ev[i]} :: 0 <= i < |ev| ==> (ev[i].Pushed? <==> i > 0 && ev[i - 1] == Executed(NeedInput)))
    && (forall i :: 0 <= i < |ev| - 1 && ev[i] == Executed(NeedInput) ==> ev[i + 1].Pushed?)
    && (forall i :: 0 <= i < |ev| - 1 ==> ev[i] != Executed(Halted))
  }

  lemma {:induction false} PushedLinesCons(e: Event, ev: seq<Event>)
    ensures PushedLines([e] + ev) == (if e.Pushed? then [e.line] else []) + PushedLines(ev)
  {
    assert ([e] + ev)[1..] == ev;
  }

  /** An `execute` result other than NeedInput and Halted can precede any
      protocol-abiding session. */
  lemma ProtocolAfterExit(code: ExitCode, ev: seq<Event>)
    requires Protocol(ev) && code != NeedInput && code != Halted
    ensures Protocol([Executed(code)] + ev)
    ensures PushedLines([Executed(code)] + ev) == PushedLines(ev)
  {
    PushedLinesCons(Executed(code), ev);
    var ev' := [Executed(code)] + ev;
    forall i | 0 <= i < |ev'|
      ensures ev'[i].Pushed? <==> i > 0 && ev'[i - 1] == Executed(NeedInput)
    {
      if i > 0 {
        assert ev'[i] == ev[i - 1];
      }
    }
  }

  /** A NeedInput answered by a push can precede any protocol-abiding session. */
  lemma ProtocolAfterFeed(line: seq<u8>, ev: seq<Event>)
    requires Protocol(ev)
    ensures Protocol([Executed(NeedInput), Pushed(line)] + ev)
    ensures PushedLines([Executed(NeedInput), Pushed(line)] + ev) == [line] + PushedLines(ev)
  {
    PushedLinesCons(Pushed(line), ev);
    PushedLinesCons(Executed(NeedInput), [Pushed(line)] + ev);
    assert [Executed(NeedInput), Pushed(line)] + ev == [Executed(NeedInput)] + ([Pushed(line)] + ev);
    var ev' := [Executed(NeedInput), Pushed(line)] + ev;
    forall i | 0 <= i < |ev'|
      ensures ev'[i].Pushed? <==> i > 0 && ev'[i - 1] == Executed(NeedInput)
    {
      if i > 1 {
        assert ev'[i] == ev[i - 2];
      }
    }
  }

  lemma PrefixCons<T>(xs: seq<T>, k: nat)
    requires k < |xs|
    ensures [xs[0]] + xs[1..][..k] == xs[..k + 1]
  {
  }

  /** What every session of `run_cpu` satisfies: the events follow the
      host protocol, the session finished exactly when the last event is
      Halted, and the pushed lines are the first lines of the input, in
      order. */
  ghost predicate Abides(r: Session, lines: seq<seq<u8>>) {
    && Protocol(r.events)
    && (r.ending == Finished <==> r.events != [] && r.events[|r.events| - 1] == Executed(Halted))
    && |PushedLines(r.events)| <= |lines|
    && PushedLines(r.events) == lines[..|PushedLines(r.events)|]
  }

  /** `run_cpu` */
  function Run(s: State, lines: seq<seq<u8>>, fuel: nat): (r: Session)
    requires Valid(s)
    ensures Abides(r, lines)
    decreases fuel, 0
  {
    if fuel == 0 then Session([], FuelExhausted)
    else Handle(Execute(s, fuel), lines, fuel - 1)
  }

  /** A NeedInput answered with the first line, followed by the session
      run on the remaining lines. */
  function Feed(lines: seq<seq<u8>>, rest: Session): (r: Session)
    requires lines != [] && Abides(rest, lines[1..])
    ensures Abides(r, lines)
  {
    ProtocolAfterFeed(lines[0], rest.events);
    PrefixCons(lines, |PushedLines(rest.events)|);
    Session([Executed(NeedInput), Pushed(lines[0])] + rest.events, rest.ending)
  }

  /** An `execute` result other than NeedInput and Halted, followed by the
      session run on the same lines. */
  function Pass(code: ExitCode, lines: seq<seq<u8>>, rest: Session): (r: Session)
    requires code != NeedInput && code != Halted && Abides(rest, lines)
    ensures Abides(r, lines)
  {
    ProtocolAfterExit(code, rest.events);
    Session([Executed(code)] + rest.events, rest.ending)
  }

  /** The body of the `run_cpu` loop: act on one `execute` result. */
  function Handle(e: RunResult, lines: seq<seq<u8>>, fuel: nat): (r: Session)
    requires !e.Crashed? ==> Valid(e.next)
    ensures Abides(r, lines)
    decreases fuel, 1
  {
    match e
    case Stopped(NeedInput, t) =>
      if lines == [] then Session([Executed(NeedInput)], InputExhausted)
      else Feed(lines, Run(PushStr(t, lines[0]), lines[1..], fuel))
    case Stopped(Halted, _) => Session([Executed(Halted)], Finished)
    case Stopped(code, t) => Pass(code, lines, Run(t, lines, fuel))
    case Crashed(f) => Session([], Failed(f))
    case OutOfFuel(_) => Session([], FuelExhausted)
  }

  /** The events of the ABC program from its k-th output on. */
  function AbcEvents(k: nat): seq<Event>
    requires k <= 3
    decreases 3 - k
  {
    if k == 3 then [Executed(Halted)] else [Executed(Output(97 + k))] + AbcEvents(k + 1)
  }

  /** After the last output, one `execute` call halts the session. */
  lemma RunAbcLast()
    ensures Valid(CpuLemmas.AbcAfter(3))
    ensures Run(CpuLemmas.AbcAfter(3), [], 1) == Session([Executed(Halted)], Finished)
  {
    CpuLemmas.AbcHalts();
  }

  /** A session whose first `execute` call prints a byte. */
  lemma RunOutput(s: State, f: nat, b: u8, t: State, rest: Session)
    requires Valid(s) && Valid(t) && f > 0
    requires Execute(s, f) == Stopped(Output(b), t)
    requires Run(t, [], f - 1) == rest
    ensures Run(s, [], f) == Session([Executed(Output(b))] + rest.events, rest.ending)
  {
  }

  lemma {:induction false} RunAbcFrom(k: nat)
    requires k <= 3
    ensures Valid(CpuLemmas.AbcAfter(k))
    ensures Run(CpuLemmas.AbcAfter(k), [], 4 - k) == Session(AbcEvents(k), Finished)
    decreases 3 - k
  {
    if k == 3 {
      RunAbcLast();
    } else {
      var s := CpuLemmas.AbcAfter(k);
      CpuLemmas.AbcPair(k);
      ExecuteFuelMonotone(s, 2, 4 - k);
      RunAbcFrom(k + 1);
      RunOutput(s, 4 - k, 97 + k, CpuLemmas.AbcAfter(k + 1), Session(AbcEvents(k + 1), Finished));
    }
  }

  lemma AbcEventsSpelled()
    ensures AbcEvents(0) == [Executed(Output(97)), Executed(Output(98)), Executed(Output(99)), Executed(Halted)]
  {
  }

  lemma PrintedCons(e: Event, ev: seq<Event>)
    ensures Printed([e] + ev) == (if e.Executed? && e.code.Output? then [e.code.byte] else []) + Printed(ev)
  {
    assert ([e] + ev)[1..] == ev;
  }

  lemma AbcPrinted()
    ensures Printed(AbcEvents(0)) == [97, 98, 99]
  {
    assert Printed(AbcEvents(3)) == [] by {
      PrintedCons(Executed(Halted), []);
    }
    PrintedCons(Executed(Output(99)), AbcEvents(3));
    PrintedCons(Executed(Output(98)), AbcEvents(2));
    PrintedCons(Executed(Output(97)), AbcEvents(1));
  }

  /** The whole session of the ABC program with no input lines: three
      outputs and a halt, printing "abc". */
  lemma RunAbc()
    ensures Run(New(CpuLemmas.ABC), [], 4)
      == Session([Executed(Output(97)), Executed(Output(98)), Executed(Output(99)), Executed(Halted)], Finished)
    ensures Printed(Run(New(CpuLemmas.ABC), [], 4).events) == [97, 98, 99]
  {
    RunAbcFrom(0);
    AbcEventsSpelled();
    AbcPrinted();
  }
}
