/** rx_build_nfa of rx/rxnfa.c in its own form: states and edges are added to a graph in place.  It is
    proved to build the graph that RxNfa.Build describes. */
module RxBuild {
  import opened Options
  import opened RxSyntax
  import opened RxNfa

  class Nfa {
    var g: Graph

    constructor ()
      ensures g == []
    {
      g := [];
    }

    /** rx_nfa_state */
    method NewState() returns (q: nat)
      modifies this
      ensures q == |old(g)| && g == old(g) + [[]]
    {
      q := |g|;
      g := g + [[]];
    }

    /** rx_nfa_edge: the newest edge comes first. */
    method NewEdge(q: nat, e: Edge)
      requires q < |g|
      modifies this
      ensures g == AddEdge(old(g), q, e) && |g| == |old(g)|
    {
      g := g[q := [e] + g[q]];
    }

    method BuildNfa(e: Rexp, so: Option<nat>, eo: Option<nat>) returns (s: nat, t: nat)
      requires Usable(g, so, eo) && Plain(e)
      modifies this
      ensures Built(g, s, t) == Build(old(g), e, so, eo)
      decreases Size(e), 1
    {
      if so.Some? {
        s := so.value;
      } else {
        s := NewState();
      }
      if e.Null? {
        return s, s;
      }
      if eo.Some? {
        t := eo.value;
      } else {
        t := NewState();
      }
      t := BuildBetween(e, s, t);
    }

    /** The switch of rx_build_nfa; the end state may turn out to be another one. */
    method BuildBetween(e: Rexp, s: nat, t: nat) returns (end: nat)
      requires s < |g| && t < |g| && s != t && Plain(e) && !e.Null?
      modifies this
      ensures Built(g, s, end) == Wire(old(g), e, s, t)
      decreases Size(e), 0
    {
      end := t;
      match e
      case Cset(cs) =>
        NewEdge(s, On(cs, t));
      case Str(x) =>
        if |x| == 1 {
          NewEdge(s, On({x[0]}, t));
        } else {
          var rs, rt := BuildNfa(Str(x[1..]), None, Some(t));
          var fs, ft := BuildNfa(Str([x[0]]), Some(s), Some(rs));
        }
      case Opt(b) =>
        var bs, bt := BuildNfa(b, Some(s), Some(t));
        NewEdge(s, Eps(bt));
        end := bt;
      case Plus(b) =>
        var os, ot := BuildNfa(b, Some(s), None);
        BuildLoop(b, ot, t);
      case Star(b) =>
        BuildLoop(b, s, t);
      case Interval(b, _, _) =>
        BuildLoop(b, s, t);
      case Parens(b, _) =>
        var ps, pt := BuildNfa(b, Some(s), Some(t));
        end := pt;
      case Concat(x, y) =>
        var ls, lt := BuildNfa(x, Some(s), None);
        var rs, rt := BuildNfa(y, Some(lt), Some(t));
        end := rt;
      case Alt(x, y) =>
        var ls, lt := BuildNfa(x, None, None);
        var rs, rt := BuildNfa(y, None, None);
        NewEdge(s, Eps(ls));
        NewEdge(s, Eps(rs));
        NewEdge(lt, Eps(t));
        NewEdge(rt, Eps(t));
    }

    method BuildLoop(b: Rexp, from: nat, to: nat)
      requires from < |g| && to < |g| && Plain(b)
      modifies this
      ensures g == Loop(Build(old(g), b, None, None), from, to)
      decreases Size(b), 2
    {
      var bs, bt := BuildNfa(b, None, None);
      NewEdge(bs, Eps(bt));
      NewEdge(from, Eps(bs));
      NewEdge(bt, Eps(to));
      NewEdge(bt, Eps(bs));
    }
  }
}
