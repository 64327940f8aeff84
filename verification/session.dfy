/** The listen loop: console lines are handled one after another, in arrival
    order, until the input ends or a line ends the loop. */
module Session {
  import opened Console

  /** One line read from the console, with the collaborators' answers at the
      moment it is handled. */
  datatype Input = Input(line: string, env: Env)

  /** What a run of the loop did: all effects in order, how many lines it
      read, and whether it stopped before the input ended. */
  datatype Trace = Trace(effects: seq<Effect>, consumed: nat, halted: bool)

  predicate Stops(input: Input)
  {
    Halts(input.line, input.env)
  }

  /** The loop's control flow over the outcomes of successive lines: take
      each outcome's effects in turn and stop right after the first outcome
      that does not continue. */
  function Fold(steps: seq<Step>): (r: Trace)
    ensures r.consumed <= |steps|
    ensures r.halted ==> r.consumed >= 1
    ensures !r.halted ==> r.consumed == |steps|
    decreases |steps|
  {
    if |steps| == 0 then Trace([], 0, false)
    else if !steps[0].cont then Trace(steps[0].effects, 1, true)
    else
      var rest := Fold(steps[1..]);
      Trace(steps[0].effects + rest.effects, 1 + rest.consumed, rest.halted)
  }

  /** The outcome of every line of `session`, handled on its own. */
  function Steps(session: seq<Input>): (steps: seq<Step>)
    ensures |steps| == |session|
    decreases |session|
  {
    if |session| == 0 then []
    else [Dispatch(session[0].line, session[0].env)] + Steps(session[1..])
  }

  /** The `i`-th outcome is the dispatch of the `i`-th line; it continues
      exactly when that line does not end the loop. */
  lemma {:induction false} StepsAt(session: seq<Input>, i: nat)
    requires i < |session|
    ensures Steps(session)[i] == Dispatch(session[i].line, session[i].env)
    ensures Steps(session)[i].cont <==> !Stops(session[i])
    decreases |session|
  {
    if i > 0 {
      StepsAt(session[1..], i - 1);
      assert session[1..][i - 1] == session[i];
    }
  }

  /** Runs the listen loop over `session`. Since handling a line depends only
      on that line and the collaborators' answers, the lines after the one
      that ends the loop contribute nothing. */
  function Run(session: seq<Input>): (r: Trace)
    ensures r.consumed <= |session|
    ensures !r.halted ==> r.consumed == |session|
  {
    Fold(Steps(session))
  }

  lemma {:induction false} StepsAppend(a: seq<Input>, b: seq<Input>)
    ensures Steps(a + b) == Steps(a) + Steps(b)
    decreases |a|
  {
    if |a| == 0 {
      assert a + b == b;
    } else {
      assert (a + b)[0] == a[0];
      assert (a + b)[1..] == a[1..] + b;
      StepsAppend(a[1..], b);
    }
  }

  /** The fold stops exactly at the first outcome that does not continue. */
  lemma {:induction false} FoldStopsAtFirstHalt(steps: seq<Step>)
    ensures Fold(steps).halted <==> exists i :: 0 <= i < |steps| && !steps[i].cont
    ensures Fold(steps).halted ==> !steps[Fold(steps).consumed - 1].cont
    ensures forall i :: 0 <= i < Fold(steps).consumed - 1 ==> steps[i].cont
    decreases |steps|
  {
    if |steps| > 0 && steps[0].cont {
      FoldStopsAtFirstHalt(steps[1..]);
      assert forall i :: 1 <= i < |steps| ==> steps[i] == steps[1..][i - 1];
    }
  }

  /** The loop stops exactly at the first line that ends it, and reads every
      line when no line does. */
  lemma RunStopsAtFirstHalt(session: seq<Input>)
    ensures Run(session).halted <==> exists i :: 0 <= i < |session| && Stops(session[i])
    ensures Run(session).halted ==> Stops(session[Run(session).consumed - 1])
    ensures forall i :: 0 <= i < Run(session).consumed - 1 ==> !Stops(session[i])
    ensures !Run(session).halted ==> forall i :: 0 <= i < |session| ==> !Stops(session[i])
  {
    var steps := Steps(session);
    FoldStopsAtFirstHalt(steps);
    forall i | 0 <= i < |session| ensures steps[i].cont <==> !Stops(session[i]) {
      StepsAt(session, i);
    }
  }

  lemma {:induction false} FoldIgnoresAfterHalt(a: seq<Step>, b: seq<Step>)
    requires Fold(a).halted
    ensures Fold(a + b) == Fold(a)
    decreases |a|
  {
    assert (a + b)[0] == a[0];
    if a[0].cont {
      FoldIgnoresAfterHalt(a[1..], b);
      assert (a + b)[1..] == a[1..] + b;
    }
  }

  /** Once a line has ended the loop, nothing after it is read. */
  lemma RunIgnoresAfterHalt(a: seq<Input>, b: seq<Input>)
    requires Run(a).halted
    ensures Run(a + b) == Run(a)
  {
    StepsAppend(a, b);
    FoldIgnoresAfterHalt(Steps(a), Steps(b));
  }

  lemma {:induction false} FoldAppend(a: seq<Step>, b: seq<Step>)
    requires !Fold(a).halted
    ensures Fold(a + b) == Trace(Fold(a).effects + Fold(b).effects, |a| + Fold(b).consumed, Fold(b).halted)
    decreases |a|
  {
    if |a| == 0 {
      assert a + b == b;
    } else {
      assert (a + b)[0] == a[0];
      assert (a + b)[1..] == a[1..] + b;
      FoldAppend(a[1..], b);
    }
  }

  /** When `a` does not end the loop, running `a + b` is running `a` and then `b`. */
  lemma RunAppend(a: seq<Input>, b: seq<Input>)
    requires !Run(a).halted
    ensures Run(a + b) == Trace(Run(a).effects + Run(b).effects, |a| + Run(b).consumed, Run(b).halted)
  {
    StepsAppend(a, b);
    FoldAppend(Steps(a), Steps(b));
  }
}
