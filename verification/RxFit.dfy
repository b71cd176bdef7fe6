/** The fit test as a whole: compile a regular expression, run its superstates over a span, and ask
    whether the last superstate is final. */
module RxFit {
  import opened Options
  import opened RxSyntax
  import opened RxNfa
  import opened RxBuild
  import opened RxThompson
  import opened RxEclose
  import opened RxSubset
  import opened RxRun

  lemma CompileClosed(e: Rexp)
    requires Plain(e)
    ensures Closed(Compile(e).g) && Compile(e).start < |Compile(e).g|
  {
    var labels := CompileLabel(e, [], 0);
  }

  /** What the engine answers about the word w[i..j] */
  ghost predicate Fits(e: Rexp, w: Text, i: nat, j: nat)
    requires Plain(e) && i <= j <= |w|
  {
    var b := Compile(e);
    b.end in CodeRun(b.g, Closure(b.g, b.start), w[i..j])
  }

  /** rx_start_superstate and rx_fit_p, on an automaton made for the expression */
  method FitTest(e: Rexp, w: Text, i: nat, j: nat) returns (ans: bool)
    requires Plain(e) && i <= j <= |w|
    ensures ans == Fits(e, w, i, j)
  {
    CompileClosed(e);
    var nfa := new Nfa();
    var start, end := nfa.BuildNfa(e, None, None);
    var sys := new System(Built(nfa.g, start, end));
    sys.StartSuperstate();
    var a := sys.FitP(w[i..j]);
    ans := a == Yes;
  }

  /** The engine accepts every word of the language, on all bytes. */
  lemma FitNeverLoses(e: Rexp, w: Text, i: nat, j: nat)
    requires Plain(e) && i <= j <= |w| && Rough(e, w, i, j)
    ensures Fits(e, w, i, j)
  {
    var b := Compile(e);
    CompileClosed(e);
    CompileExact(e, w, i, j);
    RunExact(b.g, b.start, w, i, j, b.end);
    RunInCodeRun(b.g, Closure(b.g, b.start), Closure(b.g, b.start), w[i..j]);
  }

  /** Where the subset test looks at every character of the word, acceptance is the language. */
  lemma FitExact(e: Rexp, w: Text, i: nat, j: nat)
    requires Plain(e) && i <= j <= |w| && Inspected(w[i..j])
    ensures Fits(e, w, i, j) <==> Rough(e, w, i, j)
  {
    var b := Compile(e);
    CompileClosed(e);
    CompileExact(e, w, i, j);
    RunExact(b.g, b.start, w, i, j, b.end);
    CodeRunExact(b.g, Closure(b.g, b.start), w[i..j]);
  }
}
