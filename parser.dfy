/**
 * The sexagesimal expression evaluator of kanon_api/core/calculations/parser.py.
 *
 * On the top-level call (empty trace) spaces are removed and every maximal
 * run of `+`/`-` is collapsed into one sign. The text is then split at the
 * first occurrence of the first operator present, in the fixed order
 * `+ - * /`, and both halves are evaluated recursively; operator-free text
 * must be a literal (BRMATCHER) or the evaluation fails.
 */
module Parser {
  import opened Wrappers
  import Sexagesimal

  /** What `parse` raises: SyntaxError with its message, int("") and division by zero. */
  datatype ParseError = SyntaxError(message: string) | ValueError | ZeroDivisionError

  const SyntaxPrefix: string := "Invalid syntax : "

  predicate IsSign(c: char) { c == '+' || c == '-' }

  predicate IsDigit(c: char) { '0' <= c <= '9' }

  predicate IsOperator(c: char) { c == '+' || c == '-' || c == '*' || c == '/' }

  // ---------------------------------------------------------------------------
  // Sign normalisation

  /** `s.replace(" ", "")`. */
  function RemoveSpaces(s: string): (r: string)
    ensures |r| <= |s|
    ensures forall i :: 0 <= i < |r| ==> r[i] != ' '
  {
    if |s| == 0 then []
    else (if s[0] == ' ' then [] else [s[0]]) + RemoveSpaces(s[1..])
  }

  /** Removing spaces keeps every other character, as often as it occurs. */
  lemma {:induction false} RemoveSpacesKeeps(s: string)
    ensures multiset(RemoveSpaces(s)) == multiset(s)[' ' := 0]
    decreases |s|
  {
    if |s| > 0 {
      assert s == [s[0]] + s[1..];
      RemoveSpacesKeeps(s[1..]);
    }
  }

  /** Removing spaces keeps the order of everything else: it distributes over concatenation. */
  lemma {:induction false} RemoveSpacesAppend(a: string, b: string)
    ensures RemoveSpaces(a + b) == RemoveSpaces(a) + RemoveSpaces(b)
    decreases |a|
  {
    if |a| == 0 {
      assert a + b == b;
    } else {
      assert (a + b)[0] == a[0];
      assert (a + b)[1..] == a[1..] + b;
      RemoveSpacesAppend(a[1..], b);
    }
  }

  /** Length of the run of sign characters that starts s. */
  function SignRunLength(s: string): (n: nat)
    ensures n <= |s|
  {
    if |s| == 0 || !IsSign(s[0]) then 0 else 1 + SignRunLength(s[1..])
  }

  /** The run is made of signs and is maximal. */
  lemma {:induction false} SignRunLengthSpec(s: string)
    ensures forall i :: 0 <= i < SignRunLength(s) ==> IsSign(s[i])
    ensures SignRunLength(s) < |s| ==> !IsSign(s[SignRunLength(s)])
    decreases |s|
  {
    if |s| > 0 && IsSign(s[0]) {
      SignRunLengthSpec(s[1..]);
    }
  }

  /** Length of the run of non-sign characters that starts s. */
  function LeadLength(s: string): (n: nat)
    ensures n <= |s|
  {
    if |s| == 0 || IsSign(s[0]) then 0 else 1 + LeadLength(s[1..])
  }

  /** The lead is made of non-signs and is maximal. */
  lemma {:induction false} LeadLengthSpec(s: string)
    ensures forall i :: 0 <= i < LeadLength(s) ==> !IsSign(s[i])
    ensures LeadLength(s) < |s| ==> IsSign(s[LeadLength(s)])
    decreases |s|
  {
    if |s| > 0 && !IsSign(s[0]) {
      LeadLengthSpec(s[1..]);
    }
  }

  /** `s.count("-")`. */
  function CountMinus(s: string): nat
  {
    if |s| == 0 then 0 else (if s[0] == '-' then 1 else 0) + CountMinus(s[1..])
  }

  /** The sign a run stands for: `-` iff the run holds an odd number of `-`. */
  function RunSign(run: string): string
  {
    if CountMinus(run) % 2 == 1 then "-" else "+"
  }

  /** `SIGNMATCHER.findall(s)`: the maximal runs of signs, left to right. */
  function SignRuns(s: string): seq<string>
    decreases |s|
  {
    if |s| == 0 then []
    else if !IsSign(s[0]) then SignRuns(s[1..])
    else var n := SignRunLength(s); [s[..n]] + SignRuns(s[n..])
  }

  /** s with every maximal run of signs replaced by the sign it stands for. */
  function Collapse(s: string): (r: string)
    ensures |r| <= |s|
    decreases |s|
  {
    if |s| == 0 then []
    else if !IsSign(s[0]) then [s[0]] + Collapse(s[1..])
    else var n := SignRunLength(s); RunSign(s[..n]) + Collapse(s[n..])
  }

  /** No two sign characters stand next to each other. */
  predicate NoAdjacentSigns(s: string)
  {
    forall i :: 0 <= i < |s| - 1 ==> !(IsSign(s[i]) && IsSign(s[i + 1]))
  }

  /** Index of the first occurrence of `pat` in t (`str.find`). */
  function Find(t: string, pat: string): (r: Option<nat>)
    ensures r.Some? ==> r.value + |pat| <= |t| && t[r.value..r.value + |pat|] == pat
    decreases |t|
  {
    if |t| < |pat| then None
    else if t[..|pat|] == pat then Some(0)
    else match Find(t[1..], pat)
      case None => None
      case Some(i) => Some(i + 1)
  }

  /** `t.replace(pat, rep, 1)`. */
  function ReplaceFirst(t: string, pat: string, rep: string): string
  {
    match Find(t, pat)
    case None => t
    case Some(i) => t[..i] + rep + t[i + |pat|..]
  }

  /** `pat` occurs in t at index i. */
  predicate MatchAt(t: string, pat: string, i: nat)
  {
    i + |pat| <= |t| && t[i..i + |pat|] == pat
  }

  /** The first match is the one after a prefix that holds no match. */
  lemma {:induction false} FindAfterPrefix(u: string, pat: string, v: string)
    requires forall i: nat :: i < |u| ==> !MatchAt(u + pat + v, pat, i)
    ensures Find(u + pat + v, pat) == Some(|u|)
    decreases |u|
  {
    var t := u + pat + v;
    if |u| == 0 {
      assert t[..|pat|] == pat;
    } else {
      assert !MatchAt(t, pat, 0);
      assert t[..|pat|] == t[0..0 + |pat|];
      assert t[1..] == u[1..] + pat + v;
      forall i: nat | i < |u[1..]|
        ensures !MatchAt(u[1..] + pat + v, pat, i)
      {
        assert !MatchAt(t, pat, i + 1);
        assert (u[1..] + pat + v)[i..i + |pat|] == t[i + 1..i + 1 + |pat|];
      }
      FindAfterPrefix(u[1..], pat, v);
    }
  }

  /** A run ends where the text it is part of stops being signs. */
  lemma {:induction false} SignRunLengthAppend(a: string, b: string)
    requires SignRunLength(a) < |a| || b == [] || !IsSign(b[0])
    ensures SignRunLength(a + b) == SignRunLength(a)
    decreases |a|
  {
    if |a| == 0 {
      assert a + b == b;
    } else if IsSign(a[0]) {
      assert (a + b)[1..] == a[1..] + b;
      SignRunLengthAppend(a[1..], b);
    }
  }

  /** Collapse of text starting with a non-sign. */
  lemma CollapseUnfoldPlain(s: string)
    requires |s| > 0 && !IsSign(s[0])
    ensures Collapse(s) == [s[0]] + Collapse(s[1..])
  {
  }

  /** Collapse of text starting with a sign. */
  lemma CollapseUnfoldSign(s: string)
    requires |s| > 0 && IsSign(s[0])
    ensures Collapse(s) == RunSign(s[..SignRunLength(s)]) + Collapse(s[SignRunLength(s)..])
  {
  }

  /** Collapsing distributes over a concatenation that does not cut a run. */
  lemma {:induction false} CollapseAppend(a: string, b: string)
    requires a == [] || b == [] || !IsSign(a[|a| - 1]) || !IsSign(b[0])
    ensures Collapse(a + b) == Collapse(a) + Collapse(b)
    decreases |a|
  {
    if |a| == 0 {
      assert a + b == b;
    } else if !IsSign(a[0]) {
      CollapseAppendPlain(a, b);
    } else {
      CollapseAppendRun(a, b);
    }
  }

  lemma {:induction false} CollapseAppendPlain(a: string, b: string)
    requires |a| > 0 && !IsSign(a[0])
    requires b == [] || !IsSign(a[|a| - 1]) || !IsSign(b[0])
    ensures Collapse(a + b) == Collapse(a) + Collapse(b)
    decreases |a|, 0
  {
    var ab := a + b;
    assert ab[0] == a[0];
    assert ab[1..] == a[1..] + b;
    assert a[1..] == [] || a[1..][|a[1..]| - 1] == a[|a| - 1];
    calc {
      Collapse(ab);
      { CollapseUnfoldPlain(ab); }
      [a[0]] + Collapse(a[1..] + b);
      { CollapseAppend(a[1..], b); }
      [a[0]] + (Collapse(a[1..]) + Collapse(b));
      ([a[0]] + Collapse(a[1..])) + Collapse(b);
      { CollapseUnfoldPlain(a); }
      Collapse(a) + Collapse(b);
    }
  }

  lemma {:induction false} CollapseAppendRun(a: string, b: string)
    requires |a| > 0 && IsSign(a[0])
    requires b == [] || !IsSign(a[|a| - 1]) || !IsSign(b[0])
    ensures Collapse(a + b) == Collapse(a) + Collapse(b)
    decreases |a|, 0
  {
    var ab := a + b;
    var n := SignRunLength(a);
    assert n >= 1;
    SignRunLengthSpec(a);
    SignRunLengthAppend(a, b);
    assert ab[0] == a[0];
    assert ab[..n] == a[..n];
    assert ab[n..] == a[n..] + b;
    assert a[n..] == [] || a[n..][|a[n..]| - 1] == a[|a| - 1];
    var head := RunSign(a[..n]);
    calc {
      Collapse(ab);
      { CollapseUnfoldSign(ab); }
      head + Collapse(a[n..] + b);
      { CollapseAppend(a[n..], b); }
      head + (Collapse(a[n..]) + Collapse(b));
      (head + Collapse(a[n..])) + Collapse(b);
      { CollapseUnfoldSign(a); }
      Collapse(a) + Collapse(b);
    }
  }

  /** Text without signs collapses to itself. */
  lemma {:induction false} CollapseNoSigns(w: string)
    requires forall i :: 0 <= i < |w| ==> !IsSign(w[i])
    ensures Collapse(w) == w
    decreases |w|
  {
    if |w| > 0 {
      CollapseNoSigns(w[1..]);
    }
  }

  /** Text made only of signs collapses to the one sign it stands for. */
  lemma CollapseRun(r: string)
    requires |r| > 0
    requires forall i :: 0 <= i < |r| ==> IsSign(r[i])
    ensures Collapse(r) == RunSign(r)
  {
    SignRunAll(r);
    CollapseUnfoldSign(r);
    assert r[..|r|] == r;
    assert r[|r|..] == [];
  }

  /** Text made only of signs is one run. */
  lemma {:induction false} SignRunAll(r: string)
    requires forall i :: 0 <= i < |r| ==> IsSign(r[i])
    ensures SignRunLength(r) == |r|
    decreases |r|
  {
    if |r| > 0 {
      assert forall i :: 0 <= i < |r[1..]| ==> r[1..][i] == r[i + 1];
      SignRunAll(r[1..]);
    }
  }

  /** Runs are only found where there are signs. */
  lemma {:induction false} SignRunsSkipLead(s: string)
    ensures SignRuns(s) == SignRuns(s[LeadLength(s)..])
    ensures SignRuns(s) != [] ==> LeadLength(s) < |s|
    decreases |s|
  {
    if |s| > 0 && !IsSign(s[0]) {
      SignRunsSkipLead(s[1..]);
      assert s[LeadLength(s)..] == s[1..][LeadLength(s[1..])..];
    }
  }

  /** Replacing a pattern by itself changes nothing. */
  lemma ReplaceSame(t: string, r: string)
    ensures ReplaceFirst(t, r, r) == t
  {
    match Find(t, r)
    case None =>
    case Some(i) =>
      assert t[..i] + r + t[i + |r|..] == t;
  }

  /** Replacing the first match, found after u, splices in the replacement. */
  lemma ReplaceAt(u: string, pat: string, v: string, rep: string)
    requires Find(u + pat + v, pat) == Some(|u|)
    ensures ReplaceFirst(u + pat + v, pat, rep) == u + rep + v
  {
    var t := u + pat + v;
    assert t[..|u|] == u;
    assert t[|u| + |pat|..] == v;
  }

  /** The next run of rest, and the non-signs before it. */
  lemma NextRun(rest: string) returns (w: string, r: string, rest': string)
    requires SignRuns(rest) != []
    ensures rest == w + r + rest'
    ensures forall i :: 0 <= i < |w| ==> !IsSign(w[i])
    ensures |r| > 0 && forall i :: 0 <= i < |r| ==> IsSign(r[i])
    ensures rest' == [] || !IsSign(rest'[0])
    ensures r == SignRuns(rest)[0] && SignRuns(rest') == SignRuns(rest)[1..]
  {
    SignRunsSkipLead(rest);
    var m := LeadLength(rest);
    w := rest[..m];
    var x := rest[m..];
    var n := SignRunLength(x);
    LeadLengthSpec(rest);
    SignRunLengthSpec(x);
    assert x[0] == rest[m];
    assert SignRuns(x) == [x[..n]] + SignRuns(x[n..]);
    r := x[..n];
    rest' := x[n..];
    assert rest == w + r + rest';
  }

  /** Collapsing the consumed text appends the collapsed run. */
  lemma CollapseConsumed(done: string, w: string, r: string)
    requires done == [] || w + r == [] || !IsSign((w + r)[0])
    requires forall i :: 0 <= i < |w| ==> !IsSign(w[i])
    requires |r| > 0 && forall i :: 0 <= i < |r| ==> IsSign(r[i])
    ensures Collapse(done + w + r) == Collapse(done) + w + RunSign(r)
  {
    var c := Collapse(done);
    calc {
      Collapse(done + w + r);
      { AppendAssoc(done, w, r); }
      Collapse(done + (w + r));
      { CollapseAppend(done, w + r); }
      c + Collapse(w + r);
      { CollapseAppend(w, r); }
      c + (Collapse(w) + Collapse(r));
      { CollapseNoSigns(w); CollapseRun(r); }
      c + (w + RunSign(r));
      { AppendAssoc(c, w, RunSign(r)); }
      c + w + RunSign(r);
    }
  }

  lemma AppendAssoc<T>(a: seq<T>, b: seq<T>, c: seq<T>)
    ensures a + b + c == a + (b + c)
  {
  }


  /**
   * A run of two or more signs cannot occur inside text with no adjacent
   * signs followed by non-signs.
   */
  lemma NoEarlyMatch(c: string, w: string, r: string, v: string)
    requires NoAdjacentSigns(c)
    requires forall i :: 0 <= i < |w| ==> !IsSign(w[i])
    requires c == [] || w != [] || !IsSign(c[|c| - 1])
    requires |r| >= 2 && IsSign(r[0]) && IsSign(r[1])
    ensures forall i: nat :: i < |c + w| ==> !MatchAt(c + w + r + v, r, i)
  {
    var u := c + w;
    forall i: nat | i < |u|
      ensures !MatchAt(u + r + v, r, i)
    {
      var tt := u + r + v;
      assert tt[i] == (if i < |c| then c[i] else w[i - |c|]);
      assert tt[i + 1] == (if i + 1 < |c| then c[i + 1] else if i + 1 < |u| then w[i + 1 - |c|] else r[0]);
      assert !(IsSign(tt[i]) && IsSign(tt[i + 1]));
      if i + |r| <= |tt| {
        assert tt[i..i + |r|][0] == tt[i] && tt[i..i + |r|][1] == tt[i + 1];
      }
    }
  }

  /**
   * One iteration of the normalisation loop: the next run is found after the
   * already-collapsed text and the following non-signs, and replaced there.
   */
  lemma ReplaceStep(done: string, rest: string, r: string) returns (done': string, rest': string)
    requires SignRuns(rest) != [] && SignRuns(rest)[0] == r
    requires done == [] || rest == [] || !IsSign(rest[0])
    ensures done' + rest' == done + rest
    ensures SignRuns(rest') == SignRuns(rest)[1..]
    ensures done' == [] || rest' == [] || !IsSign(rest'[0])
    ensures ReplaceFirst(Collapse(done) + rest, r, RunSign(r)) == Collapse(done') + rest'
  {
    var w, r0, rest1 := NextRun(rest);
    rest' := rest1;
    done' := done + w + r;
    if w == [] {
      assert rest[0] == r[0];
    }
    ReplaceStepCore(done, w, r, rest');
    calc {
      done' + rest';
      { AppendAssoc(done + w, r, rest'); }
      done + w + (r + rest');
      { AppendAssoc(done, w, r + rest'); }
      done + (w + (r + rest'));
      { AppendAssoc(w, r, rest'); }
      done + rest;
    }
  }

  /** The replacement of the run r that follows done and the non-signs w. */
  lemma ReplaceStepCore(done: string, w: string, r: string, v: string)
    requires forall i :: 0 <= i < |w| ==> !IsSign(w[i])
    requires |r| > 0 && forall i :: 0 <= i < |r| ==> IsSign(r[i])
    requires done == [] || w != []
    ensures ReplaceFirst(Collapse(done) + (w + r + v), r, RunSign(r)) == Collapse(done + w + r) + v
  {
    var c := Collapse(done);
    if w != [] {
      assert (w + r)[0] == w[0];
    }
    calc {
      c + (w + r + v);
      { AppendAssoc(c, w + r, v); }
      c + (w + r) + v;
      { AppendAssoc(c, w, r); }
      c + w + r + v;
    }
    calc {
      ReplaceFirst(c + w + r + v, r, RunSign(r));
      { ReplaceRun(done, w, r, v); }
      c + w + RunSign(r) + v;
      { CollapseConsumed(done, w, r); }
      Collapse(done + w + r) + v;
    }
  }


  /** The run r, after collapsed text and non-signs w, is where the replacement lands. */
  lemma ReplaceRun(done: string, w: string, r: string, v: string)
    requires forall i :: 0 <= i < |w| ==> !IsSign(w[i])
    requires |r| > 0 && forall i :: 0 <= i < |r| ==> IsSign(r[i])
    requires done == [] || w != []
    ensures ReplaceFirst(Collapse(done) + w + r + v, r, RunSign(r)) == Collapse(done) + w + RunSign(r) + v
  {
    var c := Collapse(done);
    var u := c + w;
    assert c + w + r + v == u + r + v;
    if |r| == 1 {
      assert RunSign(r) == r by {
        assert r[1..] == [];
        assert CountMinus(r) == (if r[0] == '-' then 1 else 0);
      }
      ReplaceSame(u + r + v, r);
    } else {
      CollapseNoAdjacent(done);
      NoEarlyMatch(c, w, r, v);
      FindAfterPrefix(u, r, v);
      ReplaceAt(u, r, v, RunSign(r));
    }
  }

  /** Collapsed text has no two adjacent signs. */
  lemma {:induction false} CollapseNoAdjacent(s: string)
    ensures NoAdjacentSigns(Collapse(s))
    ensures |s| > 0 && !IsSign(s[0]) ==> Collapse(s)[0] == s[0]
    decreases |s|
  {
    if |s| > 0 {
      if !IsSign(s[0]) {
        CollapseNoAdjacent(s[1..]);
      } else {
        var n := SignRunLength(s);
        SignRunLengthSpec(s);
        CollapseNoAdjacent(s[n..]);
        CollapseUnfoldSign(s);
        SignThenPlain(RunSign(s[..n]), Collapse(s[n..]));
      }
    }
  }

  /** One sign followed by text that does not start with a sign. */
  lemma SignThenPlain(a: string, t: string)
    requires |a| == 1 && NoAdjacentSigns(t) && (t == [] || !IsSign(t[0]))
    ensures NoAdjacentSigns(a + t)
  {
    var u := a + t;
    forall i | 0 <= i < |u| - 1
      ensures !(IsSign(u[i]) && IsSign(u[i + 1]))
    {
      if i == 0 {
        assert u[1] == t[0];
      } else {
        assert u[i] == t[i - 1] && u[i + 1] == t[i];
      }
    }
  }

  /** Text with no two adjacent signs is left unchanged. */
  lemma {:induction false} CollapseFixed(s: string)
    requires NoAdjacentSigns(s)
    ensures Collapse(s) == s
    decreases |s|
  {
    if |s| > 0 {
      if IsSign(s[0]) {
        assert SignRunLength(s) == 1;
        assert s[..1][1..] == [];
        assert CountMinus(s[..1]) == (if s[0] == '-' then 1 else 0);
        assert RunSign(s[..1]) == s[..1];
      }
      CollapseFixed(s[1..]);
    }
  }

  /** Normalising twice is normalising once. */
  lemma CollapseIdempotent(s: string)
    ensures Collapse(Collapse(s)) == Collapse(s)
  {
    CollapseNoAdjacent(s);
    CollapseFixed(Collapse(s));
  }

  /** Collapsing keeps the parity of the number of minus signs. */
  lemma {:induction false} CollapseMinusParity(s: string)
    ensures CountMinus(Collapse(s)) % 2 == CountMinus(s) % 2
    decreases |s|, 1
  {
    if |s| > 0 {
      if !IsSign(s[0]) {
        CollapseMinusParityPlain(s);
      } else {
        CollapseMinusParityRun(s);
      }
    }
  }

  lemma {:induction false} CollapseMinusParityPlain(s: string)
    requires |s| > 0 && !IsSign(s[0])
    ensures CountMinus(Collapse(s)) % 2 == CountMinus(s) % 2
    decreases |s|, 0
  {
    var head, rest := [s[0]], s[1..];
    var x, y := CountMinus(Collapse(s)), CountMinus(s);
    var a, b, d := CountMinus(head), CountMinus(Collapse(rest)), CountMinus(rest);
    assert x == a + b by {
      CollapseUnfoldPlain(s);
      CountMinusAppend(head, Collapse(rest));
    }
    assert y == a + d by {
      assert s == head + rest;
      CountMinusAppend(head, rest);
    }
    assert b % 2 == d % 2 by {
      CollapseMinusParity(rest);
    }
    SumParity(x, y, a, b, a, d);
  }

  lemma {:induction false} CollapseMinusParityRun(s: string)
    requires |s| > 0 && IsSign(s[0])
    ensures CountMinus(Collapse(s)) % 2 == CountMinus(s) % 2
    decreases |s|, 0
  {
    var n := SignRunLength(s);
    var run, rest := s[..n], s[n..];
    var x, y := CountMinus(Collapse(s)), CountMinus(s);
    var a, b := CountMinus(RunSign(run)), CountMinus(Collapse(rest));
    var c, d := CountMinus(run), CountMinus(rest);
    assert x == a + b by {
      CollapseUnfoldSign(s);
      CountMinusAppend(RunSign(run), Collapse(rest));
    }
    assert y == c + d by {
      assert s == run + rest;
      CountMinusAppend(run, rest);
    }
    assert a % 2 == c % 2 by {
      RunSignParity(run);
    }
    assert b % 2 == d % 2 by {
      CollapseMinusParity(rest);
    }
    SumParity(x, y, a, b, c, d);
  }

  /** The sign a run stands for has the run's parity of minus signs. */
  lemma RunSignParity(run: string)
    ensures CountMinus(RunSign(run)) % 2 == CountMinus(run) % 2
  {
    assert "-"[1..] == [] && "+"[1..] == [];
  }

  lemma SumParity(x: nat, y: nat, a: nat, b: nat, c: nat, d: nat)
    requires x == a + b && y == c + d
    requires a % 2 == c % 2 && b % 2 == d % 2
    ensures x % 2 == y % 2
  {
    assert a == 2 * (a / 2) + a % 2 && c == 2 * (c / 2) + c % 2;
    assert b == 2 * (b / 2) + b % 2 && d == 2 * (d / 2) + d % 2;
    assert x == 2 * (a / 2 + b / 2) + (a % 2 + b % 2);
    assert y == 2 * (c / 2 + d / 2) + (a % 2 + b % 2);
  }

  lemma {:induction false} CountMinusAppend(a: string, b: string)
    ensures CountMinus(a + b) == CountMinus(a) + CountMinus(b)
    decreases |a|
  {
    if |a| == 0 {
      assert a + b == b;
    } else {
      assert (a + b)[1..] == a[1..] + b;
      CountMinusAppend(a[1..], b);
    }
  }

  /** Text in which findall finds no run holds no sign. */
  lemma {:induction false} NoRunsNoSigns(s: string)
    requires SignRuns(s) == []
    ensures forall i :: 0 <= i < |s| ==> !IsSign(s[i])
    decreases |s|
  {
    if |s| > 0 {
      NoRunsNoSigns(s[1..]);
      assert forall i :: 1 <= i < |s| ==> s[i] == s[1..][i - 1];
    }
  }

  /**
   * Lines 20-25: spaces are removed, then each run found by SIGNMATCHER is
   * replaced, at its first occurrence, by the sign it stands for.
   */
  method NormalizeSigns(input: string) returns (t: string)
    ensures t == Collapse(RemoveSpaces(input))
  {
    t := RemoveSpaces(input);
    ghost var s := t;
    var runs := SignRuns(t);
    ghost var done: string := [];
    ghost var rest: string := s;
    for k := 0 to |runs|
      invariant done + rest == s
      invariant t == Collapse(done) + rest
      invariant SignRuns(rest) == runs[k..]
      invariant done == [] || rest == [] || !IsSign(rest[0])
    {
      var sign := if CountMinus(runs[k]) % 2 == 1 then "-" else "+";
      done, rest := ReplaceStep(done, rest, runs[k]);
      t := ReplaceFirst(t, runs[k], sign);
    }
    NoRunsNoSigns(rest);
    CollapseNoSigns(rest);
    CollapseAppend(done, rest);
  }

  // ---------------------------------------------------------------------------
  // Literals (BRMATCHER and the conversion at lines 35-40)

  /** Index of the first c in s. */
  function IndexOf(s: string, c: char): (r: Option<nat>)
    ensures r.Some? ==> r.value < |s| && s[r.value] == c && c !in s[..r.value]
    ensures r.None? ==> c !in s
  {
    if |s| == 0 then None
    else if s[0] == c then Some(0)
    else match IndexOf(s[1..], c)
      case None => None
      case Some(i) => assert s[..i + 1] == [s[0]] + s[1..][..i]; Some(i + 1)
  }

  /** `s.split(",")`. */
  function SplitComma(s: string): (r: seq<string>)
    ensures |r| >= 1
    decreases |s|
  {
    match IndexOf(s, ',')
    case None => [s]
    case Some(i) => [s[..i]] + SplitComma(s[i + 1..])
  }

  predicate AllDigits(s: string) { forall i :: 0 <= i < |s| ==> IsDigit(s[i]) }

  /** The text matches `(([0-9]*),)*[0-9]+`. */
  predicate GroupsMatch(s: string)
  {
    var g := SplitComma(s);
    (forall j :: 0 <= j < |g| ==> AllDigits(g[j])) && |g[|g| - 1]| > 0
  }

  /** Text before the anchor `$` and the trailing spaces ` *` of BRMATCHER. */
  function StripTrailing(s: string): string
  {
    var t := if |s| > 0 && s[|s| - 1] == '\n' then s[..|s| - 1] else s;
    TrimSpaces(t)
  }

  function TrimSpaces(s: string): (r: string)
    ensures |r| <= |s|
    decreases |s|
  {
    if |s| > 0 && s[|s| - 1] == ' ' then TrimSpaces(s[..|s| - 1]) else s
  }

  /** `str.partition(";")`. */
  function Partition(s: string): (string, bool, string)
  {
    match IndexOf(s, ';')
    case None => (s, false, "")
    case Some(i) => (s[..i], true, s[i + 1..])
  }

  /** `BRMATCHER.match(s)` succeeds. */
  predicate Matches(s: string)
  {
    var (left, found, right) := Partition(StripTrailing(s));
    GroupsMatch(left) && (!found || GroupsMatch(right))
  }

  /** `int(n)` of a string of decimal digits. */
  function DecimalValue(s: string): nat
    requires AllDigits(s)
    decreases |s|
  {
    if |s| == 0 then 0
    else DecimalValue(s[..|s| - 1]) * 10 + (s[|s| - 1] as int - '0' as int)
  }

  /** `int(n)` for every integer group; an empty group makes `int("")` fail. */
  function IntegerDigits(groups: seq<string>): (r: Result<seq<int>, ParseError>)
    requires forall j :: 0 <= j < |groups| ==> AllDigits(groups[j])
    ensures r.Err? ==> r.error == ValueError
  {
    if |groups| == 0 then Ok([])
    else if |groups[0]| == 0 then Err(ValueError)
    else match IntegerDigits(groups[1..])
      case Err(e) => Err(e)
      case Ok(ds) => Ok([DecimalValue(groups[0]) as int] + ds)
  }

  /** `int(n)` for every non-empty fractional group; empty groups are dropped. */
  function FractionDigits(groups: seq<string>): seq<int>
    requires forall j :: 0 <= j < |groups| ==> AllDigits(groups[j])
  {
    if |groups| == 0 then []
    else if |groups[0]| == 0 then FractionDigits(groups[1..])
    else [DecimalValue(groups[0]) as int] + FractionDigits(groups[1..])
  }

  /**
   * Lines 36-40 on a matching text. `int` ignores the trailing whitespace the
   * regex lets through, so the groups are read from the stripped text.
   */
  function LiteralValue(s: string): (r: Result<real, ParseError>)
    requires Matches(s)
    ensures r.Err? ==> r.error == ValueError
  {
    var (left, _, right) := Partition(StripTrailing(s));
    match IntegerDigits(SplitComma(left))
    case Err(e) => Err(e)
    case Ok(ld) => Ok(Sexagesimal.Value(ld, FractionDigits(SplitComma(right))))
  }

  /**
   * `int` fails on the integer groups exactly when one of them is empty;
   * otherwise the digits are the groups' values, one per group, in order.
   */
  lemma {:induction false} IntegerDigitsGroups(groups: seq<string>)
    requires forall j :: 0 <= j < |groups| ==> AllDigits(groups[j])
    ensures IntegerDigits(groups).Ok? <==> forall j :: 0 <= j < |groups| ==> |groups[j]| > 0
    ensures IntegerDigits(groups).Ok? ==>
      |IntegerDigits(groups).value| == |groups| &&
      forall j :: 0 <= j < |groups| ==> IntegerDigits(groups).value[j] == DecimalValue(groups[j]) as int
    decreases |groups|
  {
    if |groups| > 0 {
      IntegerDigitsGroups(groups[1..]);
      assert forall j :: 1 <= j < |groups| ==> groups[j] == groups[1..][j - 1];
    }
  }

  /** The fractional digits of consecutive groups are those of each part in turn. */
  lemma {:induction false} FractionDigitsAppend(a: seq<string>, b: seq<string>)
    requires forall j :: 0 <= j < |a| ==> AllDigits(a[j])
    requires forall j :: 0 <= j < |b| ==> AllDigits(b[j])
    ensures FractionDigits(a + b) == FractionDigits(a) + FractionDigits(b)
    decreases |a|
  {
    if |a| == 0 {
      assert a + b == b;
    } else {
      assert (a + b)[0] == a[0];
      assert (a + b)[1..] == a[1..] + b;
      FractionDigitsAppend(a[1..], b);
    }
  }

  /** An empty fractional group (`1;,2`) contributes no digit. */
  lemma {:induction false} FractionDigitsDropsEmpty(a: seq<string>, b: seq<string>)
    requires forall j :: 0 <= j < |a| ==> AllDigits(a[j])
    requires forall j :: 0 <= j < |b| ==> AllDigits(b[j])
    ensures FractionDigits(a + [""] + b) == FractionDigits(a + b)
    decreases |a|
  {
    if |a| == 0 {
      assert a + [""] + b == [""] + b && a + b == b;
      LeadingEmptyGroup(b);
    } else {
      assert (a + [""] + b)[0] == a[0] && (a + [""] + b)[1..] == a[1..] + [""] + b;
      assert (a + b)[0] == a[0] && (a + b)[1..] == a[1..] + b;
      FractionDigitsDropsEmpty(a[1..], b);
    }
  }

  lemma LeadingEmptyGroup(b: seq<string>)
    requires forall j :: 0 <= j < |b| ==> AllDigits(b[j])
    ensures forall j :: 0 <= j < |[""] + b| ==> AllDigits(([""] + b)[j])
    ensures FractionDigits([""] + b) == FractionDigits(b)
  {
    var eb := [""] + b;
    forall j | 0 <= j < |eb|
      ensures AllDigits(eb[j])
    {
      if j > 0 { assert eb[j] == b[j - 1]; }
    }
    assert eb[1..] == b;
  }

  /** Converting a matching literal fails exactly when one of its integer groups is empty. */
  lemma LiteralValueFails(s: string)
    requires Matches(s)
    ensures LiteralValue(s).Err? <==>
      exists j :: 0 <= j < |SplitComma(Partition(StripTrailing(s)).0)| && |SplitComma(Partition(StripTrailing(s)).0)[j]| == 0
  {
    var g := SplitComma(Partition(StripTrailing(s)).0);
    IntegerDigitsGroups(g);
    assert LiteralValue(s).Err? <==> IntegerDigits(g).Err?;
    if IntegerDigits(g).Err? {
      var j :| 0 <= j < |g| && |g[j]| <= 0;
      assert |g[j]| == 0;
      assert LiteralValue(s).Err?;
      assert exists k :: 0 <= k < |SplitComma(Partition(StripTrailing(s)).0)| && |SplitComma(Partition(StripTrailing(s)).0)[k]| == 0;
    } else {
      assert forall j :: 0 <= j < |g| ==> |g[j]| > 0;
      assert LiteralValue(s).Ok?;
    }
  }

  // ---------------------------------------------------------------------------
  // Evaluation

  /** The first of `+ - * /`, in that order, that occurs in s. */
  function FirstOperator(s: string): (r: Option<char>)
    ensures r.Some? ==> IsOperator(r.value) && r.value in s
    ensures r.None? ==> forall i :: 0 <= i < |s| ==> !IsOperator(s[i])
  {
    if '+' in s then Some('+')
    else if '-' in s then Some('-')
    else if '*' in s then Some('*')
    else if '/' in s then Some('/')
    else None
  }

  function Negate(r: Result<real, ParseError>): (n: Result<real, ParseError>)
    ensures n.Err? <==> r.Err?
    ensures n.Err? ==> n == r
    ensures n.Ok? ==> n.value == -r.value
  {
    match r
    case Err(e) => Err(e)
    case Ok(x) => Ok(-x)
  }

  /** `op(parse(a), parse(b))`: the left operand's failure comes first. */
  function Apply(token: char, a: Result<real, ParseError>, b: Result<real, ParseError>): (r: Result<real, ParseError>)
    ensures a.Err? ==> r == a
    ensures a.Ok? && b.Err? ==> r == b
    ensures r.Err? && a.Ok? && b.Ok? ==> token !in "+-*" && b.value == 0.0 && r.error == ZeroDivisionError
  {
    match a
    case Err(e) => Err(e)
    case Ok(x) =>
      match b
      case Err(e) => Err(e)
      case Ok(y) =>
        if token == '+' then Ok(x + y)
        else if token == '-' then Ok(x - y)
        else if token == '*' then Ok(x * y)
        else if y == 0.0 then Err(ZeroDivisionError)
        else Ok(x / y)
  }


  /** Either a value, or a failure that is not a syntax error, or the syntax error with its prefix. */
  predicate WellFormedOutcome(r: Result<real, ParseError>)
  {
    r.Err? && r.error.SyntaxError? ==>
      |r.error.message| >= |SyntaxPrefix| && r.error.message[..|SyntaxPrefix|] == SyntaxPrefix
  }

  /**
   * `parse(input, br, trace)`. Only the call with an empty trace normalises;
   * recursive calls pass the (non-empty) text being split as their trace.
   */
  function Parse(input: string, trace: string := ""): (r: Result<real, ParseError>)
    ensures WellFormedOutcome(r)
    decreases |input|
  {
    var s := if trace == "" then Collapse(RemoveSpaces(input)) else input;
    match FirstOperator(s)
    case Some(token) =>
      var i := IndexOf(s, token).value;
      var a := s[..i];
      var b := s[i + 1..];
      if a == "" && token == '-' then Negate(Parse(b, s))
      else if a == "" && token == '+' then Parse(b, s)
      else Apply(token, Parse(a, s), Parse(b, s))
    case None =>
      if Matches(s) then LiteralValue(s)
      else Err(SyntaxError(SyntaxPrefix + (if trace == "" then s else trace)))
  }

  // ---------------------------------------------------------------------------
  // Properties of the evaluator

  /** The text `parse` actually evaluates on a top-level call. */
  function Normalize(input: string): string
  {
    Collapse(RemoveSpaces(input))
  }

  lemma {:induction false} RemoveSpacesFixed(s: string)
    requires forall i :: 0 <= i < |s| ==> s[i] != ' '
    ensures RemoveSpaces(s) == s
    decreases |s|
  {
    if |s| > 0 {
      RemoveSpacesFixed(s[1..]);
    }
  }

  /** Collapsing brings in no character other than the signs. */
  lemma {:induction false} CollapseKeepsNoSpaces(s: string)
    requires forall i :: 0 <= i < |s| ==> s[i] != ' '
    ensures forall i :: 0 <= i < |Collapse(s)| ==> Collapse(s)[i] != ' '
    decreases |s|
  {
    if |s| > 0 {
      if !IsSign(s[0]) {
        CollapseKeepsNoSpaces(s[1..]);
        CollapseUnfoldPlain(s);
      } else {
        CollapseKeepsNoSpaces(s[SignRunLength(s)..]);
        CollapseUnfoldSign(s);
      }
    }
  }

  /** Normalising is idempotent, so parsing normalised text changes nothing. */
  lemma NormalizeIdempotent(input: string)
    ensures Normalize(Normalize(input)) == Normalize(input)
    ensures Parse(Normalize(input)) == Parse(input)
  {
    var t := RemoveSpaces(input);
    CollapseKeepsNoSpaces(t);
    RemoveSpacesFixed(Collapse(t));
    CollapseIdempotent(t);
  }

  /** A non-empty string of decimal digits. */
  predicate Numeral(d: string) { |d| > 0 && AllDigits(d) }

  /** The literal `d;f`, an integer part and one sexagesimal fraction digit. */
  function Literal(d: string, f: string): string { d + ";" + f }

  /** The number `d;f` denotes. */
  function LiteralNumber(d: string, f: string): real
    requires Numeral(d) && Numeral(f)
  {
    DecimalValue(d) as real + DecimalValue(f) as real / 60.0
  }

  /** Digits only: no separator, no operator, no space. */
  lemma DigitsHaveNo(d: string, c: char)
    requires AllDigits(d) && !IsDigit(c)
    ensures c !in d
  {
    forall i | 0 <= i < |d|
      ensures d[i] != c
    {
      assert IsDigit(d[i]);
    }
  }

  lemma SplitCommaNumeral(d: string)
    requires AllDigits(d)
    ensures SplitComma(d) == [d]
  {
    DigitsHaveNo(d, ',');
  }

  /** Every character of `d;f` is a digit or the `;`. */
  lemma LiteralChars(d: string, f: string)
    requires Numeral(d) && Numeral(f)
    ensures forall i :: 0 <= i < |Literal(d, f)| ==> Literal(d, f)[i] == ';' || IsDigit(Literal(d, f)[i])
  {
    var s := Literal(d, f);
    forall i | 0 <= i < |s|
      ensures s[i] == ';' || IsDigit(s[i])
    {
      if i < |d| { assert s[i] == d[i]; }
      else if i > |d| { assert s[i] == f[i - |d| - 1]; }
    }
  }

  /** BRMATCHER's partition of `d;f` is d and f. */
  lemma LiteralPartition(d: string, f: string)
    requires Numeral(d) && Numeral(f)
    ensures Partition(StripTrailing(Literal(d, f))) == (d, true, f)
  {
    var s := Literal(d, f);
    assert s[|s| - 1] == f[|f| - 1];
    assert StripTrailing(s) == s;
    DigitsHaveNo(d, ';');
    assert s[..|d|] == d;
    assert s[|d|] == ';';
    assert IndexOf(s, ';') == Some(|d|);
    assert s[|d| + 1..] == f;
  }

  /** `d;f` matches BRMATCHER and converts to d + f/60. */
  lemma LiteralText(d: string, f: string)
    requires Numeral(d) && Numeral(f)
    ensures forall i :: 0 <= i < |Literal(d, f)| ==> !IsOperator(Literal(d, f)[i]) && Literal(d, f)[i] != ' '
    ensures Matches(Literal(d, f))
    ensures LiteralValue(Literal(d, f)) == Ok(LiteralNumber(d, f))
  {
    LiteralChars(d, f);
    LiteralPartition(d, f);
    SplitCommaNumeral(d);
    SplitCommaNumeral(f);
    var x, y := DecimalValue(d) as int, DecimalValue(f) as int;
    assert FractionDigits([f]) == [y];
    assert IntegerDigits([d]) == Ok([x]) by {
      assert [d][1..] == [];
      assert IntegerDigits([]) == Ok([]);
      assert [x] + [] == [x];
    }
    assert Sexagesimal.FractionValue([y]) == y as real / 60.0 by {
      assert [y][1..] == [];
    }
    assert Sexagesimal.IntegerValue([x]) == x by {
      assert [x][..0] == [];
    }
  }

  /** The fractional digit of a single group: none for an empty group. */
  lemma FractionDigitsSingle(d: string)
    requires AllDigits(d)
    ensures FractionDigits([d]) == if |d| == 0 then [] else [DecimalValue(d) as int]
  {
    assert [d][1..] == [];
  }

  /** Groups before a `,` that holds no comma themselves. */
  lemma SplitCommaJoin(x: string, y: string)
    requires AllDigits(x)
    ensures SplitComma(x + "," + y) == [x] + SplitComma(y)
  {
    var s := x + "," + y;
    DigitsHaveNo(x, ',');
    assert s[..|x|] == x && s[|x|] == ',';
    assert IndexOf(s, ',') == Some(|x|);
    assert s[|x| + 1..] == y;
  }

  /** The partition at the first `;`. */
  lemma PartitionJoin(x: string, y: string)
    requires AllDigits(x)
    ensures Partition(x + ";" + y) == (x, true, y)
  {
    var s := x + ";" + y;
    DigitsHaveNo(x, ';');
    assert s[..|x|] == x && s[|x|] == ';';
    assert IndexOf(s, ';') == Some(|x|);
    assert s[|x| + 1..] == y;
  }

  /** The value of a matching literal from the digits of its two parts. */
  lemma LiteralValueDigits(s: string, ld: seq<int>, rd: seq<int>)
    requires Matches(s)
    requires IntegerDigits(SplitComma(Partition(StripTrailing(s)).0)) == Ok(ld)
    requires FractionDigits(SplitComma(Partition(StripTrailing(s)).2)) == rd
    ensures LiteralValue(s) == Ok(Sexagesimal.Value(ld, rd))
  {
  }

  /** The integer digit of a single non-empty group. */
  lemma IntegerDigitsSingle(d: string)
    requires Numeral(d)
    ensures IntegerDigits([d]) == Ok([DecimalValue(d) as int])
  {
    assert [d][1..] == [];
    assert IntegerDigits([]) == Ok([]);
    assert [DecimalValue(d) as int] + [] == [DecimalValue(d) as int];
  }

  lemma IntegerValueSingle(x: int)
    ensures Sexagesimal.IntegerValue([x]) == x
  {
    assert [x][..0] == [];
  }

  /** An integer literal without `;`: `3` denotes 3. */
  lemma LiteralInteger(d: string)
    requires Numeral(d)
    ensures Matches(d) && LiteralValue(d) == Ok(DecimalValue(d) as real)
  {
    assert StripTrailing(d) == d by {
      assert d[|d| - 1] != ' ' && d[|d| - 1] != '\n' by {
        assert IsDigit(d[|d| - 1]);
      }
    }
    DigitsHaveNo(d, ';');
    assert Partition(d) == (d, false, "");
    SplitCommaNumeral(d);
    IntegerDigitsSingle(d);
    assert SplitComma("") == [""];
    FractionDigitsSingle("");
    IntegerValueSingle(DecimalValue(d) as int);
  }

  /** The literal `d;f,g`: an integer part and two sexagesimal fraction groups. */
  function TwoGroupLiteral(d: string, f: string, g: string): string { d + ";" + f + "," + g }

  /** The groups BRMATCHER sees in `d;f,g`. */
  lemma TwoGroupsText(d: string, f: string, g: string)
    requires Numeral(d) && AllDigits(f) && Numeral(g)
    ensures Partition(StripTrailing(TwoGroupLiteral(d, f, g))) == (d, true, f + "," + g)
    ensures SplitComma(d) == [d] && SplitComma(f + "," + g) == [f, g]
  {
    TwoGroupsPartition(d, f, g);
    SplitCommaNumeral(d);
    SplitCommaJoin(f, g);
    SplitCommaNumeral(g);
  }

  lemma TwoGroupsPartition(d: string, f: string, g: string)
    requires Numeral(d) && AllDigits(f) && Numeral(g)
    ensures Partition(StripTrailing(TwoGroupLiteral(d, f, g))) == (d, true, f + "," + g)
  {
    var right := f + "," + g;
    var s := d + ";" + right;
    assert s == TwoGroupLiteral(d, f, g);
    assert StripTrailing(s) == s by {
      assert s[|s| - 1] == g[|g| - 1];
      assert IsDigit(g[|g| - 1]);
    }
    PartitionJoin(d, right);
  }

  /** The fraction of the groups `f,g`, an empty f being dropped. */
  lemma TwoGroupsFraction(f: string, g: string)
    requires AllDigits(f) && Numeral(g)
    ensures Sexagesimal.FractionValue(FractionDigits([f, g])) ==
      if |f| == 0 then DecimalValue(g) as real / 60.0
      else DecimalValue(f) as real / 60.0 + DecimalValue(g) as real / 3600.0
  {
    assert [f, g] == [f] + [g];
    FractionDigitsAppend([f], [g]);
    FractionDigitsSingle(f);
    FractionDigitsSingle(g);
    var x, y := DecimalValue(f) as int, DecimalValue(g) as int;
    if |f| == 0 {
      assert FractionDigits([f, g]) == [y];
      OneFractionDigit(y);
    } else {
      assert FractionDigits([f, g]) == [x, y];
      TwoFractionDigits(x, y);
    }
  }

  lemma OneFractionDigit(y: int)
    ensures Sexagesimal.FractionValue([y]) == y as real / 60.0
  {
    assert [y][1..] == [];
  }

  lemma TwoFractionDigits(x: int, y: int)
    ensures Sexagesimal.FractionValue([x, y]) == x as real / 60.0 + y as real / 3600.0
  {
    assert [x, y][1..] == [y];
    OneFractionDigit(y);
  }

  /**
   * A literal with two fractional groups: `d;f,g` denotes d + f/60 + g/3600,
   * and an empty first group is dropped, so `d;,g` denotes d + g/60.
   */
  lemma LiteralTwoGroups(d: string, f: string, g: string)
    requires Numeral(d) && AllDigits(f) && Numeral(g)
    ensures Matches(TwoGroupLiteral(d, f, g))
    ensures LiteralValue(TwoGroupLiteral(d, f, g)).Ok?
    ensures LiteralValue(TwoGroupLiteral(d, f, g)).value ==
      if |f| == 0 then DecimalValue(d) as real + DecimalValue(g) as real / 60.0
      else DecimalValue(d) as real + DecimalValue(f) as real / 60.0 + DecimalValue(g) as real / 3600.0
  {
    var s := TwoGroupLiteral(d, f, g);
    TwoGroupsText(d, f, g);
    assert Matches(s) by {
      assert GroupsMatch(d) && GroupsMatch(f + "," + g);
    }
    var x := DecimalValue(d) as int;
    IntegerDigitsSingle(d);
    IntegerValueSingle(x);
    LiteralValueDigits(s, [x], FractionDigits([f, g]));
    TwoGroupsFraction(f, g);
  }

  /** An empty integer group passes the pattern but not `int`: `,3` is a ValueError. */
  lemma LiteralEmptyIntegerGroup(d: string)
    requires Numeral(d)
    ensures Matches("," + d) && LiteralValue("," + d) == Err(ValueError)
  {
    var s := "," + d;
    assert s == "" + "," + d;
    assert StripTrailing(s) == s by {
      assert s[|s| - 1] == d[|d| - 1];
      assert IsDigit(d[|d| - 1]);
    }
    DigitsHaveNo(d, ';');
    assert ';' !in s by {
      forall i | 0 <= i < |s|
        ensures s[i] != ';'
      {
        if i > 0 { assert s[i] == d[i - 1]; }
      }
    }
    assert Partition(s) == (s, false, "");
    SplitCommaJoin("", d);
    SplitCommaNumeral(d);
    assert SplitComma(s) == ["", d];
    LiteralValueFails(s);
    assert |SplitComma(s)[0]| == 0;
  }

  /** A literal evaluates to its value, whatever the trace. */
  lemma ParseLiteral(d: string, f: string, trace: string)
    requires Numeral(d) && Numeral(f)
    ensures Parse(Literal(d, f), trace) == Ok(LiteralNumber(d, f))
  {
    var s := Literal(d, f);
    LiteralText(d, f);
    if trace == "" {
      RemoveSpacesFixed(s);
      CollapseNoSigns(s);
    }
  }

  /** On text that is already normal and holds an operator, the trace plays no part. */
  lemma ParseTraceIrrelevant(s: string, trace: string)
    requires Normalize(s) == s && FirstOperator(s).Some? && trace != ""
    ensures Parse(s, "") == Parse(s, trace)
  {
    var t := FirstOperator(s).value;
    var i := IndexOf(s, t).value;
    var a, b := s[..i], s[i + 1..];
    var step := if a == "" && t == '-' then Negate(Parse(b, s))
      else if a == "" && t == '+' then Parse(b, s)
      else Apply(t, Parse(a, s), Parse(b, s));
    assert Parse(s, "") == step;
    assert Parse(s, trace) == step;
  }

  /** The normal form of `a-b` for literals a and b: no spaces, single signs, no `+`. */
  lemma MinusJoinNormal(a: string, b: string)
    requires |a| > 0 && forall i :: 0 <= i < |a| ==> !IsOperator(a[i]) && a[i] != ' '
    requires |b| > 0 && !IsSign(b[0]) && NoAdjacentSigns(b) && '+' !in b
    requires forall i :: 0 <= i < |b| ==> b[i] != ' '
    ensures Normalize(a + "-" + b) == a + "-" + b
    ensures NoAdjacentSigns(a + "-" + b) && !IsSign((a + "-" + b)[0]) && '+' !in a + "-" + b
    ensures forall i :: 0 <= i < |a + "-" + b| ==> (a + "-" + b)[i] != ' '
  {
    NoSpacesJoin(a, b);
    RemoveSpacesFixed(a + "-" + b);
    SingleSignsJoin(a, b);
    CollapseFixed(a + "-" + b);
    NoPlusJoin(a, b);
  }

  /** A literal holds neither sign. */
  lemma LiteralNoSigns(d: string, f: string)
    requires Numeral(d) && Numeral(f)
    ensures NoAdjacentSigns(Literal(d, f)) && !IsSign(Literal(d, f)[0]) && '+' !in Literal(d, f)
  {
    LiteralText(d, f);
    assert Literal(d, f)[0] == d[0];
  }

  /** Text that holds no operator and no space and is not empty. */
  predicate Operand(a: string)
  {
    |a| > 0 && forall i :: 0 <= i < |a| ==> !IsOperator(a[i]) && a[i] != ' '
  }

  /**
   * Subtraction chains associate to the right: the text is split at its
   * first `-`, so `a - b - c` evaluates as a - (b - c).
   */
  lemma ParseSubtractionChain(a: string, b: string, c: string)
    requires Operand(a) && Operand(b) && Operand(c)
    ensures var bc := b + "-" + c;
            var s := a + "-" + bc;
            Parse(a + "-" + b + "-" + c) == Apply('-', Parse(a, s), Apply('-', Parse(b, bc), Parse(c, bc)))
  {
    var bc := b + "-" + c;
    var s := a + "-" + bc;
    assert s == a + "-" + b + "-" + c;
    NoOperatorNoSigns(c);
    MinusJoinNormal(b, c);
    MinusJoinNormal(a, bc);
    assert s[|a|] == '-';
    ParseTraceIrrelevant(s, s);
    ParseMinusSplit(a, bc, s);
    ParseMinusSplit(b, c, s);
  }


  /** Operator-free text holds no sign, in particular no `+`. */
  lemma NoOperatorNoSigns(c: string)
    requires Operand(c)
    ensures NoAdjacentSigns(c) && !IsSign(c[0]) && '+' !in c
  {
  }


  /** Joining operator- and space-free texts around one `-`. */
  lemma NoSpacesJoin(a: string, b: string)
    requires forall i :: 0 <= i < |a| ==> !IsOperator(a[i]) && a[i] != ' '
    requires forall i :: 0 <= i < |b| ==> b[i] != ' '
    ensures forall i :: 0 <= i < |a + "-" + b| ==> (a + "-" + b)[i] != ' '
  {
  }

  lemma NoPlusJoin(a: string, b: string)
    requires forall i :: 0 <= i < |a| ==> !IsOperator(a[i])
    requires '+' !in b
    ensures '+' !in a + "-" + b
  {
    var s := a + "-" + b;
    forall i | 0 <= i < |s|
      ensures s[i] != '+'
    {
      if i < |a| { assert s[i] == a[i]; }
      else if i > |a| { assert s[i] == b[i - |a| - 1]; }
    }
  }

  lemma SingleSignsJoin(a: string, b: string)
    requires |a| > 0 && forall i :: 0 <= i < |a| ==> !IsOperator(a[i])
    requires |b| > 0 && !IsSign(b[0]) && NoAdjacentSigns(b)
    ensures NoAdjacentSigns(a + "-" + b)
    ensures !IsSign((a + "-" + b)[0])
  {
    var s := a + "-" + b;
    forall i | 0 <= i < |s| - 1
      ensures !(IsSign(s[i]) && IsSign(s[i + 1]))
    {
      if i < |a| - 1 {
        assert s[i] == a[i];
      } else if i == |a| - 1 {
        assert s[i] == a[i];
      } else if i == |a| {
        assert s[i + 1] == b[0];
      } else {
        assert s[i] == b[i - |a| - 1] && s[i + 1] == b[i - |a|];
      }
    }
  }

  /** The empty text is not a literal. */
  lemma EmptyNotLiteral()
    ensures !Matches("")
  {
    assert StripTrailing("") == "";
    assert Partition("") == ("", false, "");
    assert SplitComma("") == [""];
  }

  /**
   * A product or quotient with no left operand is a syntax error that
   * reports the whole text being split.
   */
  lemma ParseLeadingProduct(op: char, t: string, trace: string)
    requires op == '*' || op == '/'
    requires forall i :: 0 <= i < |t| ==> t[i] != '+' && t[i] != '-' && t[i] != ' '
    requires op == '/' ==> '*' !in t
    ensures Parse([op] + t, trace) == Err(SyntaxError(SyntaxPrefix + ([op] + t)))
  {
    var s := [op] + t;
    assert forall i :: 0 <= i < |s| ==> s[i] != '+' && s[i] != '-' && s[i] != ' ' by {
      forall i | 0 <= i < |s|
        ensures s[i] != '+' && s[i] != '-' && s[i] != ' '
      {
        if i > 0 { assert s[i] == t[i - 1]; }
      }
    }
    if trace == "" {
      RemoveSpacesFixed(s);
      CollapseNoSigns(s);
    }
    assert '+' !in s && '-' !in s;
    assert s[0] == op && IndexOf(s, op) == Some(0);
    if op == '/' {
      assert '*' !in s by {
        forall i | 0 <= i < |s|
          ensures s[i] != '*'
        {
          if i > 0 { assert s[i] == t[i - 1]; }
        }
      }
    }
    assert FirstOperator(s) == Some(op);
    assert s[..0] == "" && s[1..] == t;
    EmptyNotLiteral();
    assert Parse("", s) == Err(SyntaxError(SyntaxPrefix + s));
  }

  /** A leading `-` negates the operand that follows it. */
  lemma ParseLeadingMinus(a: string)
    requires Operand(a)
    ensures Parse("-" + a) == Negate(Parse(a, "-" + a))
  {
    var s := "-" + a;
    NoOperatorNoSigns(a);
    assert forall i :: 0 <= i < |s| ==> s[i] != ' ' by {
      forall i | 0 <= i < |s|
        ensures s[i] != ' '
      {
        if i > 0 { assert s[i] == a[i - 1]; }
      }
    }
    RemoveSpacesFixed(s);
    SignThenPlain("-", a);
    CollapseFixed(s);
    assert '+' !in s by {
      forall i | 0 <= i < |s|
        ensures s[i] != '+'
      {
        if i > 0 { assert s[i] == a[i - 1]; }
      }
    }
    assert IndexOf(s, '-') == Some(0);
    assert s[..0] == "" && s[1..] == a;
  }

  /** A leading `+` is dropped: `+a` evaluates `a`. */
  lemma ParseLeadingPlus(a: string)
    requires a != "" && '+' !in a && !IsSign(a[0]) && NoAdjacentSigns(a)
    requires forall i :: 0 <= i < |a| ==> a[i] != ' '
    ensures Parse("+" + a) == Parse(a, "+" + a)
  {
    var s := "+" + a;
    LeadingSignNormal('+', a);
    assert FirstOperator(s) == Some('+') by {
      assert s[0] == '+';
    }
    assert IndexOf(s, '+') == Some(0);
    assert s[..0] == "" && s[1..] == a;
  }

  /** A sign in front of normal text that does not start with a sign keeps it normal. */
  lemma LeadingSignNormal(c: char, a: string)
    requires IsSign(c) && a != "" && !IsSign(a[0]) && NoAdjacentSigns(a)
    requires forall i :: 0 <= i < |a| ==> a[i] != ' '
    ensures Normalize([c] + a) == [c] + a
  {
    var s := [c] + a;
    assert forall i :: 0 <= i < |s| ==> s[i] != ' ' by {
      forall i | 0 <= i < |s|
        ensures s[i] != ' '
      {
        if i > 0 { assert s[i] == a[i - 1]; }
      }
    }
    RemoveSpacesFixed(s);
    SignThenPlain([c], a);
    CollapseFixed(s);
  }

  /**
   * Text with no operator that does not match the literal pattern is a
   * syntax error, which names the text itself on a top-level call and the
   * whole expression being evaluated otherwise.
   */
  lemma ParseNonLiteral(x: string, trace: string)
    requires Operand(x) && !Matches(x)
    ensures Parse(x, trace) == Err(SyntaxError(SyntaxPrefix + (if trace == "" then x else trace)))
  {
    NoOperatorNoSigns(x);
    RemoveSpacesFixed(x);
    CollapseFixed(x);
    assert FirstOperator(x).None? by {
      forall i | 0 <= i < |x|
        ensures x[i] != '+' && x[i] != '-' && x[i] != '*' && x[i] != '/'
      {
        assert !IsOperator(x[i]);
      }
    }
  }

  /** Position of an operator in the order `+ - * /` in which they are tried. */
  function Rank(c: char): nat
  {
    if c == '+' then 0 else if c == '-' then 1 else if c == '*' then 2 else 3
  }

  /** The first occurrence of c is the one after a prefix without c. */
  lemma {:induction false} FirstAt(a: string, c: char, b: string)
    requires c !in a
    ensures IndexOf(a + [c] + b, c) == Some(|a|)
    decreases |a|
  {
    var s := a + [c] + b;
    if |a| > 0 {
      assert s[0] == a[0];
      assert s[1..] == a[1..] + [c] + b;
      FirstAt(a[1..], c, b);
    }
  }

  /**
   * Lines 26-34: when op is the first operator, in the order they are tried,
   * that occurs in the text, the text is split at the first op and both halves
   * are parsed with the text as their trace.
   */
  lemma ParseSplitFirst(a: string, op: char, b: string, trace: string)
    requires IsOperator(op) && op !in a && trace != ""
    requires forall i :: 0 <= i < |a + [op] + b| && IsOperator((a + [op] + b)[i]) ==> Rank((a + [op] + b)[i]) >= Rank(op)
    requires a != "" || op == '*' || op == '/'
    ensures var s := a + [op] + b;
            Parse(s, trace) == Apply(op, Parse(a, s), Parse(b, s))
  {
    var s := a + [op] + b;
    forall i | 0 <= i < |s|
      ensures Rank(op) > 0 ==> s[i] != '+'
      ensures Rank(op) > 1 ==> s[i] != '-'
      ensures Rank(op) > 2 ==> s[i] != '*'
    {
    }
    assert s[|a|] == op;
    assert FirstOperator(s) == Some(op);
    FirstAt(a, op, b);
    assert s[..|a|] == a && s[|a| + 1..] == b;
  }

  /** Without a `+`, text is split at its first `-`. */
  lemma ParseMinusSplit(a: string, b: string, trace: string)
    requires Operand(a) && '+' !in b && trace != ""
    ensures Parse(a + "-" + b, trace) == Apply('-', Parse(a, a + "-" + b), Parse(b, a + "-" + b))
  {
    var s := a + ['-'] + b;
    assert s == a + "-" + b;
    NoPlusJoin(a, b);
    assert '-' !in a by {
      forall i | 0 <= i < |a|
        ensures a[i] != '-'
      {
        assert !IsOperator(a[i]);
      }
    }
    forall i | 0 <= i < |s| && IsOperator(s[i])
      ensures Rank(s[i]) >= Rank('-')
    {
      assert s[i] != '+';
    }
    ParseSplitFirst(a, '-', b, trace);
  }

  // ---------------------------------------------------------------------------
  // Spacing, sign runs and precedence at the top level

  /** A top-level call depends only on the normalised text. */
  lemma ParseSameNormal(x: string, y: string)
    requires Normalize(x) == Normalize(y)
    ensures Parse(x) == Parse(y)
  {
    if Normalize(x) == "" {
      ParseEmptyNormal(x);
      ParseEmptyNormal(y);
    } else {
      ParseThroughNormal(x);
      ParseThroughNormal(y);
    }
  }

  /** A top-level call is the call on the normalised text, with that text as trace. */
  lemma ParseThroughNormal(x: string)
    requires Normalize(x) != ""
    ensures Parse(x) == Parse(Normalize(x), Normalize(x))
  {
  }

  lemma ParseEmptyNormal(x: string)
    requires Normalize(x) == ""
    ensures Parse(x) == Err(SyntaxError(SyntaxPrefix))
  {
    assert FirstOperator("").None?;
    EmptyNotLiteral();
    assert SyntaxPrefix + "" == SyntaxPrefix;
  }

  /** Spaces play no part: a top-level call removes them before anything else. */
  lemma ParseIgnoresSpaces(input: string)
    ensures Parse(input) == Parse(RemoveSpaces(input))
  {
    RemoveSpacesFixed(RemoveSpaces(input));
    ParseSameNormal(input, RemoveSpaces(input));
  }

  /** The spaces on both sides of an operator or a run of signs disappear. */
  lemma RemoveSpacesAround(a: string, m: string, b: string)
    requires forall i :: 0 <= i < |m| ==> m[i] != ' '
    ensures RemoveSpaces(a + " " + m + " " + b) == RemoveSpaces(a) + m + RemoveSpaces(b)
  {
    var sp := " ";
    assert RemoveSpaces(sp) == "" by {
      assert sp[1..] == "";
    }
    RemoveSpacesFixed(m);
    RemoveSpacesAppend(a + sp + m + sp, b);
    RemoveSpacesAppend(a + sp + m, sp);
    RemoveSpacesAppend(a + sp, m);
    RemoveSpacesAppend(a, sp);
  }

  /** Text that is not empty and holds neither a space nor a sign. */
  predicate Unsigned(a: string)
  {
    |a| > 0 && forall i :: 0 <= i < |a| ==> a[i] != ' ' && !IsSign(a[i])
  }

  /**
   * A run of signs between two unsigned texts normalises to the one sign its
   * parity stands for: `1;2--3;1` to `1;2+3;1`, `1;2--+3;1` as well.
   */
  lemma NormalizeRun(a: string, r: string, b: string)
    requires Unsigned(a) && Unsigned(b)
    requires |r| > 0 && forall i :: 0 <= i < |r| ==> IsSign(r[i])
    ensures Normalize(a + r + b) == a + RunSign(r) + b
  {
    RunTextNoSpaces(a, r, b);
    RemoveSpacesFixed(a + r + b);
    CollapseBetween(a, r, b);
  }

  lemma RunTextNoSpaces(a: string, r: string, b: string)
    requires Unsigned(a) && Unsigned(b)
    requires forall i :: 0 <= i < |r| ==> IsSign(r[i])
    ensures forall i :: 0 <= i < |a + r + b| ==> (a + r + b)[i] != ' '
  {
    var s := a + r + b;
    forall i | 0 <= i < |s|
      ensures s[i] != ' '
    {
      if i < |a| { assert s[i] == a[i]; }
      else if i < |a| + |r| { assert s[i] == r[i - |a|]; assert IsSign(s[i]); }
      else { assert s[i] == b[i - |a| - |r|]; }
    }
  }

  /** A sign run between two unsigned texts collapses to its one sign. */
  lemma CollapseBetween(a: string, r: string, b: string)
    requires Unsigned(a) && Unsigned(b)
    requires |r| > 0 && forall i :: 0 <= i < |r| ==> IsSign(r[i])
    ensures Collapse(a + r + b) == a + RunSign(r) + b
  {
    assert a + r + b == a + (r + b);
    assert (r + b)[0] == r[0];
    CollapseAppend(a, r + b);
    CollapseAppend(r, b);
    CollapseNoSigns(a);
    CollapseRun(r);
    CollapseNoSigns(b);
  }

  /** One operator between unsigned texts is already normal. */
  lemma NormalizeJoin(a: string, op: char, b: string)
    requires Unsigned(a) && Unsigned(b) && IsOperator(op)
    ensures Normalize(a + [op] + b) == a + [op] + b
  {
    if IsSign(op) {
      NormalizeRun(a, [op], b);
      assert [op][1..] == [];
      assert CountMinus([op]) == (if op == '-' then 1 else 0);
    } else {
      var s := a + [op] + b;
      assert forall i :: 0 <= i < |s| ==> s[i] != ' ' && !IsSign(s[i]) by {
        forall i | 0 <= i < |s|
          ensures s[i] != ' ' && !IsSign(s[i])
        {
          if i < |a| { assert s[i] == a[i]; }
          else if i > |a| { assert s[i] == b[i - |a| - 1]; }
        }
      }
      RemoveSpacesFixed(s);
      CollapseNoSigns(s);
    }
  }

  /** `a op b` with a space on each side of the operator, at the top level. */
  lemma ParseSpaced(a: string, op: char, b: string)
    requires Unsigned(a) && Unsigned(b) && IsOperator(op) && op !in a
    requires op == '/' ==> '*' !in a && '*' !in b
    ensures var s := a + [op] + b;
            Parse(a + " " + [op] + " " + b) == Apply(op, Parse(a, s), Parse(b, s))
  {
    RemoveSpacesFixed(a);
    RemoveSpacesFixed(b);
    RemoveSpacesAround(a, [op], b);
    ParseIgnoresSpaces(a + " " + [op] + " " + b);
    ParseTopSplit(a, op, b);
  }

  /**
   * A run of signs with a space on each side, between two unsigned texts,
   * acts as the one sign its parity stands for.
   */
  lemma ParseSpacedRun(a: string, r: string, b: string)
    requires Unsigned(a) && Unsigned(b)
    requires |r| > 0 && forall i :: 0 <= i < |r| ==> IsSign(r[i])
    ensures var s := a + RunSign(r) + b;
            Parse(a + " " + r + " " + b) == Apply(RunSign(r)[0], Parse(a, s), Parse(b, s))
  {
    var x := a + " " + r + " " + b;
    var sign := RunSign(r)[0];
    assert RunSign(r) == [sign];
    RemoveSpacesFixed(a);
    RemoveSpacesFixed(b);
    RemoveSpacesAround(a, r, b);
    ParseIgnoresSpaces(x);
    NormalizeRun(a, r, b);
    NormalizeJoin(a, sign, b);
    ParseSameNormal(a + r + b, a + [sign] + b);
    ParseTopSplit(a, sign, b);
  }

  /** Spaces around two operators disappear. */
  lemma RemoveSpacesAroundTwo(a: string, op1: char, b: string, op2: char, c: string)
    requires op1 != ' ' && op2 != ' '
    requires forall i :: 0 <= i < |a| ==> a[i] != ' '
    requires forall i :: 0 <= i < |b| ==> b[i] != ' '
    requires forall i :: 0 <= i < |c| ==> c[i] != ' '
    ensures RemoveSpaces(a + " " + [op1] + " " + b + " " + [op2] + " " + c) == a + [op1] + b + [op2] + c
  {
    var left := a + " " + [op1] + " " + b;
    RemoveSpacesFixed(a);
    RemoveSpacesFixed(b);
    RemoveSpacesFixed(c);
    RemoveSpacesAround(a, [op1], b);
    RemoveSpacesAround(left, [op2], c);
  }

  /** A product or quotient of unsigned texts is unsigned text. */
  lemma ProductText(a: string, op: char, b: string)
    requires op == '*' || op == '/'
    requires Unsigned(a) && Unsigned(b)
    ensures Unsigned(a + [op] + b)
  {
    var t := a + [op] + b;
    forall i | 0 <= i < |t|
      ensures t[i] != ' ' && !IsSign(t[i])
    {
      if i < |a| { assert t[i] == a[i]; }
      else if i > |a| { assert t[i] == b[i - |a| - 1]; }
    }
  }

  /**
   * Inside an expression, a product or quotient of unsigned texts is split
   * at its operator.
   */
  lemma ParseProduct(a: string, op: char, b: string, trace: string)
    requires op == '*' || op == '/'
    requires Unsigned(a) && Unsigned(b) && op !in a && trace != ""
    requires op == '/' ==> '*' !in a && '*' !in b
    ensures var t := a + [op] + b;
            Parse(t, trace) == Apply(op, Parse(a, t), Parse(b, t))
  {
    var t := a + [op] + b;
    forall i | 0 <= i < |t| && IsOperator(t[i])
      ensures Rank(t[i]) >= Rank(op)
    {
      if i < |a| { assert t[i] == a[i]; }
      else if i > |a| { assert t[i] == b[i - |a| - 1]; }
    }
    ParseSplitFirst(a, op, b, trace);
  }

  /**
   * `a + b * c`: the sum is split first, so the product (or quotient) is
   * evaluated as the right operand, as its own text.
   */
  lemma ParseSpacedProductInSum(a: string, op: char, b: string, c: string)
    requires op == '*' || op == '/'
    requires Unsigned(a) && Unsigned(b) && Unsigned(c) && op !in b
    requires op == '/' ==> '*' !in b && '*' !in c
    ensures var t := b + [op] + c;
            var s := a + "+" + t;
            Parse(a + " + " + (b + " " + [op] + " " + c)) == Apply('+', Parse(a, s), Apply(op, Parse(b, t), Parse(c, t)))
  {
    var t := b + [op] + c;
    var s := a + ['+'] + t;
    RemoveSpacesFixed(b);
    RemoveSpacesFixed(c);
    RemoveSpacesAround(b, [op], c);
    SpacedSumText(a, b + " " + [op] + " " + c, t);
    ProductText(b, op, c);
    ParseTopSplit(a, '+', t);
    ParseProduct(b, op, c, s);
  }

  /** Unspaced, `a+b*c` (or `a+b/c`) also takes the product first. */
  lemma ParseSumOfProduct(a: string, op: char, b: string, c: string)
    requires op == '*' || op == '/'
    requires Unsigned(a) && Unsigned(b) && Unsigned(c) && op !in b
    requires op == '/' ==> '*' !in b && '*' !in c
    ensures var t := b + [op] + c;
            var s := a + ['+'] + t;
            Parse(s) == Apply('+', Parse(a, s), Apply(op, Parse(b, t), Parse(c, t)))
  {
    var t := b + [op] + c;
    var s := a + ['+'] + t;
    ProductText(b, op, c);
    ParseTopSplit(a, '+', t);
    ParseProduct(b, op, c, s);
  }

  /** `a + u`, spaced, evaluates as the unspaced `a+t` when u loses its spaces to t. */
  lemma SpacedSumText(a: string, u: string, t: string)
    requires Unsigned(a) && RemoveSpaces(u) == t
    ensures Parse(a + " + " + u) == Parse(a + ['+'] + t)
  {
    var x := a + " " + ['+'] + " " + u;
    assert a + " + " + u == x;
    RemoveSpacesFixed(a);
    RemoveSpacesAround(a, ['+'], u);
    ParseIgnoresSpaces(x);
  }

  /**
   * `a * b + c`: the sum is split first here too, so the product (or
   * quotient) on its left is evaluated before the addition.
   */
  lemma ParseSpacedProductThenSum(a: string, op: char, b: string, c: string)
    requires op == '*' || op == '/'
    requires Unsigned(a) && Unsigned(b) && Unsigned(c) && op !in a
    requires op == '/' ==> '*' !in a && '*' !in b
    ensures var t := a + [op] + b;
            var s := t + "+" + c;
            Parse(a + " " + [op] + " " + b + " + " + c) == Apply('+', Apply(op, Parse(a, t), Parse(b, t)), Parse(c, s))
  {
    var t := a + [op] + b;
    var s := t + ['+'] + c;
    assert a + " " + [op] + " " + b + " + " + c == a + " " + [op] + " " + b + " " + ['+'] + " " + c;
    RemoveSpacesAroundTwo(a, op, b, '+', c);
    ParseIgnoresSpaces(a + " " + [op] + " " + b + " + " + c);
    ProductText(a, op, b);
    assert '+' !in t;
    ParseTopSplit(t, '+', c);
    ParseProduct(a, op, b, s);
  }

  /** `+a - b`, spaced around the `-`, evaluates as `a - b`. */
  lemma ParseSpacedLeadingPlus(a: string, b: string)
    requires Operand(a) && Operand(b)
    ensures var u := a + "-" + b;
            Parse("+" + a + " " + ['-'] + " " + b) == Apply('-', Parse(a, u), Parse(b, u))
  {
    var x := "+" + a + " " + ['-'] + " " + b;
    LeadingPlusSpaces(a, b);
    ParseIgnoresSpaces(x);
    ParseLeadingPlusDifference(a, b);
  }

  /** Removing the spaces of `+a - b`. */
  lemma LeadingPlusSpaces(a: string, b: string)
    requires Operand(a) && Operand(b)
    ensures RemoveSpaces("+" + a + " " + ['-'] + " " + b) == "+" + (a + "-" + b)
  {
    var p := "+" + a;
    assert forall i :: 0 <= i < |p| ==> p[i] != ' ' by {
      forall i | 0 <= i < |p|
        ensures p[i] != ' '
      {
        if i > 0 { assert p[i] == a[i - 1]; }
      }
    }
    RemoveSpacesFixed(p);
    RemoveSpacesFixed(b);
    RemoveSpacesAround(p, ['-'], b);
    assert p + ['-'] + b == "+" + (a + "-" + b);
  }

  /** `+a-b` drops its `+` and is split at the `-`. */
  lemma ParseLeadingPlusDifference(a: string, b: string)
    requires Operand(a) && Operand(b)
    ensures var u := a + "-" + b;
            Parse("+" + u) == Apply('-', Parse(a, u), Parse(b, u))
  {
    var u := a + "-" + b;
    NoOperatorNoSigns(b);
    MinusJoinNormal(a, b);
    ParseLeadingPlus(u);
    ParseMinusSplit(a, b, "+" + u);
  }

  /**
   * At the top level, unsigned text is split at the operator tried first:
   * `a op b` is op applied to the values of a and b, each evaluated with the
   * whole text as its trace.
   */
  lemma ParseTopSplit(a: string, op: char, b: string)
    requires Unsigned(a) && Unsigned(b) && IsOperator(op) && op !in a
    requires op == '/' ==> '*' !in a && '*' !in b
    ensures var s := a + [op] + b;
            Parse(s) == Apply(op, Parse(a, s), Parse(b, s))
  {
    var s := a + [op] + b;
    NormalizeJoin(a, op, b);
    assert s[|a|] == op;
    ParseTraceIrrelevant(s, s);
    forall i | 0 <= i < |s| && IsOperator(s[i])
      ensures Rank(s[i]) >= Rank(op)
    {
      if i < |a| { assert s[i] == a[i]; }
      else if i > |a| { assert s[i] == b[i - |a| - 1]; }
    }
    ParseSplitFirst(a, op, b, s);
  }

  // ---------------------------------------------------------------------------
  // Chains of `-` and of `/`
  //
  // Splitting at the FIRST `-` (or `/`) makes such chains associate to the
  // right: `3 - 2 - 1` evaluates as 3 - (2 - 1) = 2 and `8 / 2 / 2` as
  // 8 / (2 / 2) = 8. ParseLeft splits them at their LAST occurrence instead,
  // which gives the usual left-to-right reading; everything else is unchanged.

  /** Index of the last c in s. */
  function LastIndexOf(s: string, c: char): (r: Option<nat>)
    ensures r.Some? ==> r.value < |s| && s[r.value] == c && c !in s[r.value + 1..]
    ensures r.None? ==> c !in s
    decreases |s|
  {
    if |s| == 0 then None
    else if s[|s| - 1] == c then Some(|s| - 1)
    else
      assert s == s[..|s| - 1] + [s[|s| - 1]];
      match LastIndexOf(s[..|s| - 1], c)
      case None => None
      case Some(i) =>
        assert s[i + 1..] == s[..|s| - 1][i + 1..] + [s[|s| - 1]];
        Some(i)
  }

  /** Where the corrected evaluator splits: the last `-` or `/`, the first `+` or `*`. */
  function LeftSplitIndex(s: string, token: char): (i: nat)
    requires token in s
    ensures i < |s| && s[i] == token
  {
    if token == '-' || token == '/' then LastIndexOf(s, token).value else IndexOf(s, token).value
  }

  /** `parse` with `-` and `/` split at their last occurrence. */
  function ParseLeft(input: string, trace: string := ""): (r: Result<real, ParseError>)
    ensures WellFormedOutcome(r)
    decreases |input|
  {
    var s := if trace == "" then Collapse(RemoveSpaces(input)) else input;
    match FirstOperator(s)
    case Some(token) =>
      var i := LeftSplitIndex(s, token);
      var a := s[..i];
      var b := s[i + 1..];
      if a == "" && token == '-' then Negate(ParseLeft(b, s))
      else if a == "" && token == '+' then ParseLeft(b, s)
      else Apply(token, ParseLeft(a, s), ParseLeft(b, s))
    case None =>
      if Matches(s) then LiteralValue(s)
      else Err(SyntaxError(SyntaxPrefix + (if trace == "" then s else trace)))
  }

  /** The last occurrence of c is the one before a suffix without c. */
  lemma {:induction false} LastAt(a: string, c: char, b: string)
    requires c !in b
    ensures LastIndexOf(a + [c] + b, c) == Some(|a|)
    decreases |b|
  {
    var s := a + [c] + b;
    if |b| > 0 {
      assert s[|s| - 1] == b[|b| - 1];
      assert s[..|s| - 1] == a + [c] + b[..|b| - 1];
      LastAt(a, c, b[..|b| - 1]);
    } else {
      assert s[|s| - 1] == c;
    }
  }

  /** A literal operand evaluates to its value under either evaluator, whatever the trace. */
  lemma OperandValue(x: string, trace: string, v: real)
    requires Operand(x) && Matches(x) && LiteralValue(x) == Ok(v) && trace != ""
    ensures Parse(x, trace) == Ok(v) && ParseLeft(x, trace) == Ok(v)
  {
    assert FirstOperator(x).None? by {
      forall i | 0 <= i < |x|
        ensures x[i] != '+' && x[i] != '-' && x[i] != '*' && x[i] != '/'
      {
        assert !IsOperator(x[i]);
      }
    }
  }

  /** The values of the two groupings of a chain. */
  lemma ChainArithmetic(x: real, y: real, z: real)
    ensures Apply('-', Ok(x), Apply('-', Ok(y), Ok(z))) == Ok(x - y + z)
    ensures Apply('-', Apply('-', Ok(x), Ok(y)), Ok(z)) == Ok(x - y - z)
    ensures y != 0.0 && z != 0.0 ==> Apply('/', Ok(x), Apply('/', Ok(y), Ok(z))) == Ok(x / (y / z))
    ensures y != 0.0 && z != 0.0 ==> Apply('/', Apply('/', Ok(x), Ok(y)), Ok(z)) == Ok(x / y / z)
  {
    if y != 0.0 && z != 0.0 {
      assert y / z != 0.0;
    }
  }

  /** `a - b - c` as written: x - (y - z) = x - y + z. */
  lemma SubtractionChainAsWritten(a: string, b: string, c: string, x: real, y: real, z: real)
    requires Operand(a) && Operand(b) && Operand(c)
    requires Matches(a) && Matches(b) && Matches(c)
    requires LiteralValue(a) == Ok(x) && LiteralValue(b) == Ok(y) && LiteralValue(c) == Ok(z)
    ensures Parse(a + "-" + b + "-" + c) == Ok(x - y + z)
  {
    var bc := b + "-" + c;
    var s := a + "-" + bc;
    assert Parse(a + "-" + b + "-" + c) == Apply('-', Ok(x), Apply('-', Ok(y), Ok(z))) by {
      OperandValue(a, s, x);
      OperandValue(b, bc, y);
      OperandValue(c, bc, z);
      ParseSubtractionChain(a, b, c);
    }
    ChainArithmetic(x, y, z);
  }

  /** ParseLeft on normal text holding an operator does not depend on the trace. */
  lemma ParseLeftTraceIrrelevant(s: string, trace: string)
    requires Normalize(s) == s && FirstOperator(s).Some? && trace != ""
    ensures ParseLeft(s, "") == ParseLeft(s, trace)
  {
    var t := FirstOperator(s).value;
    var i := LeftSplitIndex(s, t);
    var a, b := s[..i], s[i + 1..];
    var step := if a == "" && t == '-' then Negate(ParseLeft(b, s))
      else if a == "" && t == '+' then ParseLeft(b, s)
      else Apply(t, ParseLeft(a, s), ParseLeft(b, s));
    assert ParseLeft(s, "") == step;
    assert ParseLeft(s, trace) == step;
  }

  /** ParseLeft splits at the last op when op is the first operator tried that occurs. */
  lemma ParseLeftSplitLast(a: string, op: char, b: string, trace: string)
    requires (op == '-' || op == '/') && op !in b && a != "" && trace != ""
    requires FirstOperator(a + [op] + b) == Some(op)
    ensures var s := a + [op] + b;
            ParseLeft(s, trace) == Apply(op, ParseLeft(a, s), ParseLeft(b, s))
  {
    var s := a + [op] + b;
    LastAt(a, op, b);
    assert s[..|a|] == a && s[|a| + 1..] == b;
  }

  /** The structure ParseLeft gives `a - b - c`: (a - b) - c. */
  lemma SubtractionChainLeft(a: string, b: string, c: string)
    requires Operand(a) && Operand(b) && Operand(c)
    ensures var ab := a + "-" + b;
            var s := ab + "-" + c;
            ParseLeft(a + "-" + b + "-" + c) == Apply('-', Apply('-', ParseLeft(a, ab), ParseLeft(b, ab)), ParseLeft(c, s))
  {
    var ab := a + "-" + b;
    var bc := b + "-" + c;
    var s := ab + "-" + c;
    NoOperatorNoSigns(c);
    MinusJoinNormal(b, c);
    MinusJoinNormal(a, bc);
    assert a + "-" + bc == s;
    assert s[|a|] == '-';
    ParseLeftTraceIrrelevant(s, s);
    assert ab + ['-'] + c == s;
    OperandQuotientText(c);
    ParseLeftSplitLast(ab, '-', c, s);
    NoOperatorNoSigns(b);
    NoPlusJoin(a, b);
    assert ab[|a|] == '-';
    assert a + ['-'] + b == ab;
    OperandQuotientText(b);
    ParseLeftSplitLast(a, '-', b, s);
  }

  /** `a - b - c` split at its last `-`: (x - y) - z. */
  lemma SubtractionChainCorrected(a: string, b: string, c: string, x: real, y: real, z: real)
    requires Operand(a) && Operand(b) && Operand(c)
    requires Matches(a) && Matches(b) && Matches(c)
    requires LiteralValue(a) == Ok(x) && LiteralValue(b) == Ok(y) && LiteralValue(c) == Ok(z)
    ensures ParseLeft(a + "-" + b + "-" + c) == Ok(x - y - z)
  {
    var ab := a + "-" + b;
    var s := ab + "-" + c;
    assert ParseLeft(a + "-" + b + "-" + c) == Apply('-', Apply('-', Ok(x), Ok(y)), Ok(z)) by {
      OperandValue(a, ab, x);
      OperandValue(b, ab, y);
      OperandValue(c, s, z);
      SubtractionChainLeft(a, b, c);
    }
    ChainArithmetic(x, y, z);
  }

  /** Text without space, sign or `*`: only `/` can split it. */
  predicate QuotientText(s: string)
  {
    forall i :: 0 <= i < |s| ==> s[i] != ' ' && !IsSign(s[i]) && s[i] != '*'
  }

  lemma QuotientJoin(a: string, b: string)
    requires QuotientText(a) && QuotientText(b)
    ensures QuotientText(a + "/" + b)
  {
    var s := a + "/" + b;
    forall i | 0 <= i < |s|
      ensures s[i] != ' ' && !IsSign(s[i]) && s[i] != '*'
    {
      if i < |a| { assert s[i] == a[i]; }
      else if i > |a| { assert s[i] == b[i - |a| - 1]; }
    }
  }

  lemma OperandQuotientText(x: string)
    requires Operand(x)
    ensures QuotientText(x) && '/' !in x
  {
    forall i | 0 <= i < |x|
      ensures x[i] != ' ' && !IsSign(x[i]) && x[i] != '*' && x[i] != '/'
    {
      assert !IsOperator(x[i]);
    }
  }

  /** A quotient of operands is already in normal form and holds `/`. */
  lemma QuotientNormal(a: string, b: string)
    requires QuotientText(a) && QuotientText(b)
    ensures Normalize(a + "/" + b) == a + "/" + b
    ensures FirstOperator(a + "/" + b) == Some('/')
  {
    var s := a + "/" + b;
    QuotientJoin(a, b);
    RemoveSpacesFixed(s);
    CollapseNoSigns(s);
    assert s[|a|] == '/';
  }

  /** The structure `parse` gives `a / b / c`: a / (b / c). */
  lemma DivisionChain(a: string, b: string, c: string)
    requires Operand(a) && Operand(b) && Operand(c)
    ensures var bc := b + "/" + c;
            var s := a + "/" + bc;
            Parse(a + "/" + b + "/" + c) == Apply('/', Parse(a, s), Apply('/', Parse(b, bc), Parse(c, bc)))
  {
    var bc := b + "/" + c;
    var s := a + "/" + bc;
    assert a + "/" + b + "/" + c == s;
    OperandQuotientText(a);
    OperandQuotientText(b);
    OperandQuotientText(c);
    QuotientJoin(b, c);
    QuotientNormal(a, bc);
    QuotientNormal(b, c);
    ParseTraceIrrelevant(s, s);
    QuotientSplitFirst(a, bc, s);
    QuotientSplitFirst(b, c, s);
  }

  /** Quotient text holding `/` is split at its first `/`. */
  lemma QuotientSplitFirst(a: string, b: string, trace: string)
    requires QuotientText(a) && QuotientText(b) && '/' !in a && trace != ""
    ensures var s := a + "/" + b;
            Parse(s, trace) == Apply('/', Parse(a, s), Parse(b, s))
  {
    var s := a + "/" + b;
    QuotientJoin(a, b);
    assert s == a + ['/'] + b;
    forall i | 0 <= i < |s| && IsOperator(s[i])
      ensures Rank(s[i]) >= Rank('/')
    {
    }
    ParseSplitFirst(a, '/', b, trace);
  }

  /** `a / b / c` as written: x / (y / z). */
  lemma DivisionChainAsWritten(a: string, b: string, c: string, x: real, y: real, z: real)
    requires Operand(a) && Operand(b) && Operand(c)
    requires Matches(a) && Matches(b) && Matches(c)
    requires LiteralValue(a) == Ok(x) && LiteralValue(b) == Ok(y) && LiteralValue(c) == Ok(z)
    requires y != 0.0 && z != 0.0
    ensures Parse(a + "/" + b + "/" + c) == Ok(x / (y / z))
  {
    var bc := b + "/" + c;
    var s := a + "/" + bc;
    assert Parse(a + "/" + b + "/" + c) == Apply('/', Ok(x), Apply('/', Ok(y), Ok(z))) by {
      OperandValue(a, s, x);
      OperandValue(b, bc, y);
      OperandValue(c, bc, z);
      DivisionChain(a, b, c);
    }
    ChainArithmetic(x, y, z);
  }

  /** The structure ParseLeft gives `a / b / c`: (a / b) / c. */
  lemma DivisionChainLeft(a: string, b: string, c: string)
    requires Operand(a) && Operand(b) && Operand(c)
    ensures var ab := a + "/" + b;
            var s := ab + "/" + c;
            ParseLeft(a + "/" + b + "/" + c) == Apply('/', Apply('/', ParseLeft(a, ab), ParseLeft(b, ab)), ParseLeft(c, s))
  {
    var ab := a + "/" + b;
    var s := ab + "/" + c;
    OperandQuotientText(a);
    OperandQuotientText(b);
    OperandQuotientText(c);
    QuotientJoin(a, b);
    QuotientNormal(ab, c);
    QuotientNormal(a, b);
    ParseLeftTraceIrrelevant(s, s);
    assert ab + ['/'] + c == s;
    ParseLeftSplitLast(ab, '/', c, s);
    assert a + ['/'] + b == ab;
    ParseLeftSplitLast(a, '/', b, s);
  }

  /** `a / b / c` split at its last `/`: (x / y) / z. */
  lemma DivisionChainCorrected(a: string, b: string, c: string, x: real, y: real, z: real)
    requires Operand(a) && Operand(b) && Operand(c)
    requires Matches(a) && Matches(b) && Matches(c)
    requires LiteralValue(a) == Ok(x) && LiteralValue(b) == Ok(y) && LiteralValue(c) == Ok(z)
    requires y != 0.0 && z != 0.0
    ensures ParseLeft(a + "/" + b + "/" + c) == Ok(x / y / z)
  {
    var ab := a + "/" + b;
    var s := ab + "/" + c;
    assert ParseLeft(a + "/" + b + "/" + c) == Apply('/', Apply('/', Ok(x), Ok(y)), Ok(z)) by {
      OperandValue(a, ab, x);
      OperandValue(b, ab, y);
      OperandValue(c, s, z);
      DivisionChainLeft(a, b, c);
    }
    ChainArithmetic(x, y, z);
  }

  // ---------------------------------------------------------------------------
  // The examples of the parser's tests

  /** The numerals of the examples and their values. */
  lemma DigitValues()
    ensures Numeral("0") && Numeral("1") && Numeral("2") && Numeral("3") && Numeral("4") && Numeral("10")
    ensures DecimalValue("0") == 0 && DecimalValue("1") == 1 && DecimalValue("2") == 2
    ensures DecimalValue("3") == 3 && DecimalValue("4") == 4 && DecimalValue("10") == 10
  {
    assert "1"[..0] == "" && "2"[..0] == "" && "3"[..0] == "" && "4"[..0] == "" && "0"[..0] == "";
    assert "10"[..1] == "1";
  }

  /** A literal `d;f` is unsigned text. */
  lemma LiteralUnsigned(d: string, f: string)
    requires Numeral(d) && Numeral(f)
    ensures Unsigned(Literal(d, f)) && Operand(Literal(d, f))
  {
    LiteralText(d, f);
  }

  lemma NumeralText(d: string)
    requires Numeral(d)
    ensures Unsigned(d) && Operand(d) && Matches(d) && LiteralValue(d) == Ok(DecimalValue(d) as real)
  {
    LiteralInteger(d);
    forall i | 0 <= i < |d|
      ensures d[i] != ' ' && !IsOperator(d[i])
    {
      assert IsDigit(d[i]);
    }
  }

  /** An integer literal evaluates to its value inside an expression. */
  lemma ParseNumeral(d: string, trace: string)
    requires Numeral(d) && trace != ""
    ensures Parse(d, trace) == Ok(DecimalValue(d) as real)
  {
    NumeralText(d);
    OperandValue(d, trace, DecimalValue(d) as real);
  }

  /** `0;10 - 3` splits at its `-` into `0;10` and `3`. */
  lemma DifferenceSplit()
    ensures var s := Literal("0", "10") + ['-'] + "3";
            Parse("0;10 - 3") == Apply('-', Parse(Literal("0", "10"), s), Parse("3", s))
  {
    var a := Literal("0", "10");
    assert "0;10 - 3" == a + " " + ['-'] + " " + "3";
    LiteralUnsigned("0", "10");
    NumeralText("3");
    ParseSpaced(a, '-', "3");
  }

  /** `0;10 - 3` evaluates to -2;50. */
  lemma ExampleDifference()
    ensures Parse("0;10 - 3") == Ok(-(2.0 + 50.0 / 60.0))
  {
    var s := Literal("0", "10") + ['-'] + "3";
    DifferenceSplit();
    DigitValues();
    assert s != "";
    ParseLiteral("0", "10", s);
    ParseNumeral("3", s);
  }

  /** `1;2` evaluates to 1;2. */
  lemma ExampleLiteral()
    ensures Parse("1;2") == Ok(1.0 + 2.0 / 60.0)
  {
    assert "1;2" == Literal("1", "2");
    DigitValues();
    ParseLiteral("1", "2", "");
  }

  /** `1;2 + 3` splits at its `+`. */
  lemma SumSplit()
    ensures var s := Literal("1", "2") + ['+'] + "3";
            Parse("1;2 + 3") == Apply('+', Parse(Literal("1", "2"), s), Parse("3", s))
  {
    var a := Literal("1", "2");
    assert "1;2 + 3" == a + " " + ['+'] + " " + "3";
    LiteralUnsigned("1", "2");
    NumeralText("3");
    ParseSpaced(a, '+', "3");
  }

  /** `1;2 + 3` evaluates to 4;2. */
  lemma ExampleSum()
    ensures Parse("1;2 + 3") == Ok(4.0 + 2.0 / 60.0)
  {
    var s := Literal("1", "2") + ['+'] + "3";
    SumSplit();
    DigitValues();
    assert s != "";
    ParseLiteral("1", "2", s);
    ParseNumeral("3", s);
  }

  /** `+4;2 - 3` drops its leading `+` and splits at its `-`. */
  lemma LeadingPlusSplit()
    ensures var u := Literal("4", "2") + "-" + "3";
            Parse("+4;2 - 3") == Apply('-', Parse(Literal("4", "2"), u), Parse("3", u))
  {
    var a := Literal("4", "2");
    DigitValues();
    LiteralUnsigned("4", "2");
    NumeralText("3");
    assert "+4;2 - 3" == "+" + a + " " + ['-'] + " " + "3";
    ParseSpacedLeadingPlus(a, "3");
  }

  /** `+4;2 - 3` evaluates to 1;2. */
  lemma ExampleLeadingPlus()
    ensures Parse("+4;2 - 3") == Ok(1.0 + 2.0 / 60.0)
  {
    var u := Literal("4", "2") + "-" + "3";
    LeadingPlusSplit();
    DigitValues();
    assert u != "";
    ParseLiteral("4", "2", u);
    ParseNumeral("3", u);
  }

  /** `1;2 -- 3;1` acts as `1;2+3;1`. */
  lemma DoubleMinusSplit()
    ensures var s := Literal("1", "2") + "+" + Literal("3", "1");
            Parse("1;2 -- 3;1") == Apply('+', Parse(Literal("1", "2"), s), Parse(Literal("3", "1"), s))
  {
    var a, b := Literal("1", "2"), Literal("3", "1");
    DigitValues();
    LiteralUnsigned("1", "2");
    LiteralUnsigned("3", "1");
    assert "1;2 -- 3;1" == a + " " + "--" + " " + b;
    assert RunSign("--") == "+" by {
      assert "--"[1..] == "-" && "-"[1..] == "";
    }
    ParseSpacedRun(a, "--", b);
  }

  /** `1;2 -- 3;1` evaluates to 4;3. */
  lemma ExampleDoubleMinus()
    ensures Parse("1;2 -- 3;1") == Ok(4.0 + 3.0 / 60.0)
  {
    var s := Literal("1", "2") + "+" + Literal("3", "1");
    DoubleMinusSplit();
    DigitValues();
    assert s != "";
    ParseLiteral("1", "2", s);
    ParseLiteral("3", "1", s);
  }

  /** `1;2 --+ 3;1` acts as `1;2+3;1` too. */
  lemma MixedRunSplit()
    ensures var s := Literal("1", "2") + "+" + Literal("3", "1");
            Parse("1;2 --+ 3;1") == Apply('+', Parse(Literal("1", "2"), s), Parse(Literal("3", "1"), s))
  {
    var a, b := Literal("1", "2"), Literal("3", "1");
    DigitValues();
    LiteralUnsigned("1", "2");
    LiteralUnsigned("3", "1");
    assert "1;2 --+ 3;1" == a + " " + "--+" + " " + b;
    assert RunSign("--+") == "+" by {
      assert "--+"[1..] == "-+" && "-+"[1..] == "+" && "+"[1..] == "";
    }
    ParseSpacedRun(a, "--+", b);
  }

  /** `1;2 --+ 3;1` evaluates to 4;3. */
  lemma ExampleMixedRun()
    ensures Parse("1;2 --+ 3;1") == Ok(4.0 + 3.0 / 60.0)
  {
    var s := Literal("1", "2") + "+" + Literal("3", "1");
    MixedRunSplit();
    DigitValues();
    assert s != "";
    ParseLiteral("1", "2", s);
    ParseLiteral("3", "1", s);
  }

  /** `d;f,g` is unsigned text. */
  lemma TwoGroupUnsigned(d: string, f: string, g: string)
    requires Numeral(d) && AllDigits(f) && Numeral(g)
    ensures Unsigned(TwoGroupLiteral(d, f, g)) && Operand(TwoGroupLiteral(d, f, g))
  {
    var s := TwoGroupLiteral(d, f, g);
    forall i | 0 <= i < |s|
      ensures s[i] != ' ' && !IsOperator(s[i])
    {
      if i < |d| {
        assert s[i] == d[i] && IsDigit(d[i]);
      } else if |d| < i < |d| + 1 + |f| {
        assert s[i] == f[i - |d| - 1] && IsDigit(f[i - |d| - 1]);
      } else if i > |d| + 1 + |f| {
        assert s[i] == g[i - |d| - |f| - 2] && IsDigit(g[i - |d| - |f| - 2]);
      }
    }
  }

  /** `1;2,10 + 3;1` splits at its `+`. */
  lemma TwoGroupsSumSplit()
    ensures var s := TwoGroupLiteral("1", "2", "10") + ['+'] + Literal("3", "1");
            Parse("1;2,10 + 3;1") == Apply('+', Parse(TwoGroupLiteral("1", "2", "10"), s), Parse(Literal("3", "1"), s))
  {
    var a, b := TwoGroupLiteral("1", "2", "10"), Literal("3", "1");
    DigitValues();
    TwoGroupUnsigned("1", "2", "10");
    LiteralUnsigned("3", "1");
    assert "1;2,10 + 3;1" == a + " " + ['+'] + " " + b;
    ParseSpaced(a, '+', b);
  }

  /** `1;2,10 + 3;1` evaluates to 4;3,10. */
  lemma ExampleTwoGroupsSum()
    ensures Parse("1;2,10 + 3;1") == Ok(4.0 + 3.0 / 60.0 + 10.0 / 3600.0)
  {
    var s := TwoGroupLiteral("1", "2", "10") + ['+'] + Literal("3", "1");
    TwoGroupsSumSplit();
    TwoGroupsSumOperands(s);
    TwoGroupsSumArithmetic();
  }

  lemma TwoGroupsSumOperands(s: string)
    requires s != ""
    ensures Parse(TwoGroupLiteral("1", "2", "10"), s) == Ok(1.0 + 2.0 / 60.0 + 10.0 / 3600.0)
    ensures Parse(Literal("3", "1"), s) == Ok(3.0 + 1.0 / 60.0)
  {
    var a := TwoGroupLiteral("1", "2", "10");
    DigitValues();
    TwoGroupUnsigned("1", "2", "10");
    LiteralTwoGroups("1", "2", "10");
    OperandValue(a, s, 1.0 + 2.0 / 60.0 + 10.0 / 3600.0);
    ParseLiteral("3", "1", s);
  }

  /** 1;2,10 + 3;1 = 4;3,10. */
  lemma TwoGroupsSumArithmetic()
    ensures Apply('+', Ok(1.0 + 2.0 / 60.0 + 10.0 / 3600.0), Ok(3.0 + 1.0 / 60.0)) == Ok(4.0 + 3.0 / 60.0 + 10.0 / 3600.0)
  {
  }

  /** `1;2 * 2` splits at its `*`. */
  lemma ProductSplit()
    ensures var s := Literal("1", "2") + ['*'] + "2";
            Parse("1;2 * 2") == Apply('*', Parse(Literal("1", "2"), s), Parse("2", s))
  {
    var a := Literal("1", "2");
    DigitValues();
    LiteralUnsigned("1", "2");
    NumeralText("2");
    assert "1;2 * 2" == a + " " + ['*'] + " " + "2";
    assert '*' !in a;
    ParseSpaced(a, '*', "2");
  }

  /** `1;2 * 2` evaluates to 2;4. */
  lemma ExampleProduct()
    ensures Parse("1;2 * 2") == Ok(2.0 + 4.0 / 60.0)
  {
    var s := Literal("1", "2") + ['*'] + "2";
    ProductSplit();
    assert Parse(Literal("1", "2"), s) == Ok(1.0 + 2.0 / 60.0) by {
      DigitValues();
      ParseLiteral("1", "2", s);
    }
    assert Parse("2", s) == Ok(2.0) by {
      DigitValues();
      ParseNumeral("2", s);
    }
    TwiceOneTwo();
  }

  /** 1;2 * 2 = 2;4. */
  lemma TwiceOneTwo()
    ensures Apply('*', Ok(1.0 + 2.0 / 60.0), Ok(2.0)) == Ok(2.0 + 4.0 / 60.0)
  {
  }

  /** 2;2 / 2 = 1;1. */
  lemma HalfOfTwoTwo()
    ensures Apply('/', Ok(2.0 + 2.0 / 60.0), Ok(2.0)) == Ok(1.0 + 1.0 / 60.0)
  {
  }

  /** `2;2 / 2` splits at its `/`. */
  lemma QuotientSplit()
    ensures var s := Literal("2", "2") + ['/'] + "2";
            Parse("2;2 / 2") == Apply('/', Parse(Literal("2", "2"), s), Parse("2", s))
  {
    var a := Literal("2", "2");
    DigitValues();
    LiteralUnsigned("2", "2");
    NumeralText("2");
    assert "2;2 / 2" == a + " " + ['/'] + " " + "2";
    assert '/' !in a && '*' !in a && '*' !in "2";
    ParseSpaced(a, '/', "2");
  }

  /** `2;2 / 2` evaluates to 1;1. */
  lemma ExampleQuotient()
    ensures Parse("2;2 / 2") == Ok(1.0 + 1.0 / 60.0)
  {
    var s := Literal("2", "2") + ['/'] + "2";
    QuotientSplit();
    assert Parse(Literal("2", "2"), s) == Ok(2.0 + 2.0 / 60.0) by {
      DigitValues();
      ParseLiteral("2", "2", s);
    }
    assert Parse("2", s) == Ok(2.0) by {
      DigitValues();
      ParseNumeral("2", s);
    }
    HalfOfTwoTwo();
  }

  /** `2;2 / 2 + 1` splits at its `+`, then at the `/`. */
  lemma QuotientThenSumSplit()
    ensures var t := Literal("2", "2") + ['/'] + "2";
            var s := t + "+" + "1";
            Parse("2;2 / 2 + 1") == Apply('+', Apply('/', Parse(Literal("2", "2"), t), Parse("2", t)), Parse("1", s))
  {
    var a := Literal("2", "2");
    DigitValues();
    LiteralUnsigned("2", "2");
    NumeralText("2");
    NumeralText("1");
    assert '/' !in a && '*' !in a && '*' !in "2";
    assert "2;2 / 2 + 1" == a + " " + ['/'] + " " + "2" + " + " + "1";
    ParseSpacedProductThenSum(a, '/', "2", "1");
  }

  /** `2;2 / 2 + 1` evaluates to 2;1. */
  lemma ExampleQuotientThenSum()
    ensures Parse("2;2 / 2 + 1") == Ok(2.0 + 1.0 / 60.0)
  {
    var t := Literal("2", "2") + ['/'] + "2";
    var s := t + "+" + "1";
    QuotientThenSumSplit();
    assert Parse(Literal("2", "2"), t) == Ok(2.0 + 2.0 / 60.0) by {
      DigitValues();
      ParseLiteral("2", "2", t);
    }
    assert Parse("2", t) == Ok(2.0) && Parse("1", s) == Ok(1.0) by {
      DigitValues();
      ParseNumeral("2", t);
      ParseNumeral("1", s);
    }
    HalfOfTwoTwo();
  }

  /** 1;1 + 3 * 1;1 = 4;4. */
  lemma ThreeTimesOneOne()
    ensures Apply('+', Ok(1.0 + 1.0 / 60.0), Apply('*', Ok(3.0), Ok(1.0 + 1.0 / 60.0))) == Ok(4.0 + 4.0 / 60.0)
  {
  }

  /** `1;1 + 3 * 1;1` splits at its `+`, then at the `*`. */
  lemma ProductInSumSplit()
    ensures var t := "3" + ['*'] + Literal("1", "1");
            var s := Literal("1", "1") + "+" + t;
            Parse("1;1 + 3 * 1;1") == Apply('+', Parse(Literal("1", "1"), s), Apply('*', Parse("3", t), Parse(Literal("1", "1"), t)))
  {
    var a := Literal("1", "1");
    DigitValues();
    LiteralUnsigned("1", "1");
    NumeralText("3");
    assert '*' !in "3";
    assert "1;1 + 3 * 1;1" == a + " + " + ("3" + " " + ['*'] + " " + a);
    ParseSpacedProductInSum(a, '*', "3", a);
  }

  /** `1;1 + 3 * 1;1` evaluates to 4;4: the product is taken first. */
  lemma ExampleProductInSum()
    ensures Parse("1;1 + 3 * 1;1") == Ok(4.0 + 4.0 / 60.0)
  {
    var t := "3" + ['*'] + Literal("1", "1");
    var s := Literal("1", "1") + "+" + t;
    ProductInSumSplit();
    assert Parse(Literal("1", "1"), s) == Ok(1.0 + 1.0 / 60.0) && Parse(Literal("1", "1"), t) == Ok(1.0 + 1.0 / 60.0) by {
      DigitValues();
      ParseLiteral("1", "1", s);
      ParseLiteral("1", "1", t);
    }
    assert Parse("3", t) == Ok(3.0) by {
      DigitValues();
      ParseNumeral("3", t);
    }
    ThreeTimesOneOne();
  }

  /** `-1;1` evaluates to -1;1. */
  lemma ExampleNegative()
    ensures Parse("-1;1") == Ok(-(1.0 + 1.0 / 60.0))
  {
    var a := Literal("1", "1");
    DigitValues();
    LiteralUnsigned("1", "1");
    assert "-1;1" == "-" + a;
    ParseLeadingMinus(a);
    ParseLiteral("1", "1", "-" + a);
  }

  /** `1;1a` is no operator's operand that BRMATCHER accepts: its fraction group holds a letter. */
  lemma LetterInFraction()
    ensures Unsigned("1;1a") && Operand("1;1a") && !Matches("1;1a")
  {
    LetterOperand();
    LetterNoMatch();
  }

  lemma LetterOperand()
    ensures Unsigned("1;1a") && Operand("1;1a")
  {
  }

  lemma LetterNoMatch()
    ensures !Matches("1;1a")
  {
    var x := "1;1a";
    assert x == "1" + ";" + "1a";
    assert StripTrailing(x) == x;
    assert "1"[0] == '1' && IsDigit('1');
    PartitionJoin("1", "1a");
    assert SplitComma("1a") == ["1a"] by {
      assert ',' !in "1a";
    }
    assert !AllDigits("1a") by {
      assert !IsDigit("1a"[1]);
    }
  }

  /** `1;1a + 3 * 1;1` splits at its `+`, then at the `*`. */
  lemma LetterSplit()
    ensures var t := "3" + ['*'] + Literal("1", "1");
            var s := "1;1a" + "+" + t;
            Parse("1;1a + 3 * 1;1") == Apply('+', Parse("1;1a", s), Apply('*', Parse("3", t), Parse(Literal("1", "1"), t)))
  {
    var a := "1;1a";
    var c := Literal("1", "1");
    DigitValues();
    LetterOperand();
    LiteralUnsigned("1", "1");
    NumeralText("3");
    assert '*' !in "3";
    assert "1;1a + 3 * 1;1" == a + " + " + ("3" + " " + ['*'] + " " + c);
    ParseSpacedProductInSum(a, '*', "3", c);
  }

  /** `1;1a + 3 * 1;1` is a syntax error that names the whole normalised text. */
  lemma ExampleLetter()
    ensures Parse("1;1a + 3 * 1;1") == Err(SyntaxError(SyntaxPrefix + "1;1a+3*1;1"))
  {
    var s := "1;1a" + "+" + ("3" + ['*'] + Literal("1", "1"));
    LetterSplit();
    assert Parse("1;1a", s) == Err(SyntaxError(SyntaxPrefix + s)) by {
      LetterInFraction();
      ParseNonLiteral("1;1a", s);
    }
    LetterText();
  }

  /** `1;1 + *3 * 1;1` splits at its `+`. */
  lemma LeadingStarSplit()
    ensures var t := "*3" + ['*'] + Literal("1", "1");
            var s := Literal("1", "1") + ['+'] + t;
            Parse("1;1 + *3 * 1;1") == Apply('+', Parse(Literal("1", "1"), s), Parse(t, s))
  {
    var a := Literal("1", "1");
    var t := "*3" + ['*'] + a;
    DigitValues();
    LiteralUnsigned("1", "1");
    LeadingStarSpaces();
    LeadingStarUnsigned();
    ParseTopSplit(a, '+', t);
  }

  lemma LeadingStarUnsigned()
    ensures Unsigned("*3" + ['*'] + Literal("1", "1"))
  {
    DigitValues();
    LiteralUnsigned("1", "1");
    assert Unsigned("*3");
    ProductText("*3", '*', Literal("1", "1"));
  }

  /** `1;1 + *3 * 1;1` loses its spaces. */
  lemma LeadingStarSpaces()
    ensures Parse("1;1 + *3 * 1;1") == Parse(Literal("1", "1") + ['+'] + ("*3" + ['*'] + Literal("1", "1")))
  {
    var a := Literal("1", "1");
    var b := "*3";
    var t := b + ['*'] + a;
    DigitValues();
    LiteralUnsigned("1", "1");
    assert Unsigned(b);
    RemoveSpacesFixed(b);
    RemoveSpacesFixed(a);
    RemoveSpacesAround(b, "*", a);
    assert "1;1 + *3 * 1;1" == a + " + " + (b + " " + "*" + " " + a);
    SpacedSumText(a, b + " " + "*" + " " + a, t);
  }

  /** `*3*1;1` has nothing left of its first `*`. */
  lemma LeadingStarOperand(trace: string)
    ensures var t := "*3" + ['*'] + Literal("1", "1");
            Parse(t, trace) == Err(SyntaxError(SyntaxPrefix + t))
  {
    var a := Literal("1", "1");
    var u := "3" + ['*'] + a;
    DigitValues();
    LiteralUnsigned("1", "1");
    assert "*3" + ['*'] + a == ['*'] + u;
    assert Unsigned(u);
    ParseLeadingProduct('*', u, trace);
  }

  /** `1;1 + *3 * 1;1` is a syntax error: the `*` has nothing on its left. */
  lemma ExampleLeadingStar()
    ensures Parse("1;1 + *3 * 1;1") == Err(SyntaxError(SyntaxPrefix + "*3*1;1"))
  {
    var a := Literal("1", "1");
    var t := "*3" + ['*'] + a;
    var s := a + ['+'] + t;
    LeadingStarSplit();
    assert Parse(a, s) == Ok(1.0 + 1.0 / 60.0) by {
      DigitValues();
      ParseLiteral("1", "1", s);
    }
    LeadingStarOperand(s);
    LeadingStarText();
  }

  // `1;1 + 3 */ 1;1` loses its spaces.
  lemma StarSlashSpaces()
    ensures var t := "3" + ['*'] + (['/'] + Literal("1", "1"));
            Parse("1;1 + 3 */ 1;1") == Parse(Literal("1", "1") + ['+'] + t)
  {
    var a := Literal("1", "1");
    var t := "3" + ['*'] + (['/'] + a);
    DigitValues();
    LiteralUnsigned("1", "1");
    RemoveSpacesFixed("3");
    RemoveSpacesFixed(a);
    RemoveSpacesAround("3", "*/", a);
    assert "1;1 + 3 */ 1;1" == a + " + " + ("3" + " " + "*/" + " " + a);
    assert "3" + "*/" + a == t;
    SpacedSumText(a, "3" + " " + "*/" + " " + a, t);
  }

  // `1;1 + 3 */ 1;1` splits at its `+`, then at the `*`.
  lemma StarSlashSplit()
    ensures var c := ['/'] + Literal("1", "1");
            var t := "3" + ['*'] + c;
            var s := Literal("1", "1") + ['+'] + t;
            Parse("1;1 + 3 */ 1;1") == Apply('+', Parse(Literal("1", "1"), s), Apply('*', Parse("3", t), Parse(c, t)))
  {
    var a := Literal("1", "1");
    var c := ['/'] + a;
    var t := "3" + ['*'] + c;
    StarSlashSpaces();
    StarSlashUnsigned();
    ParseSumOfProduct(a, '*', "3", c);
  }

  lemma StarSlashUnsigned()
    ensures Unsigned(Literal("1", "1")) && Unsigned("3") && Unsigned(['/'] + Literal("1", "1")) && '*' !in "3"
  {
    DigitValues();
    LiteralUnsigned("1", "1");
    NumeralText("3");
  }

  /** `/1;1` has nothing left of its `/`. */
  lemma SlashOperand(trace: string)
    ensures var c := ['/'] + Literal("1", "1");
            Parse(c, trace) == Err(SyntaxError(SyntaxPrefix + c))
  {
    var a := Literal("1", "1");
    DigitValues();
    LiteralUnsigned("1", "1");
    assert '*' !in a;
    ParseLeadingProduct('/', a, trace);
  }

  // `1;1 + 3 */ 1;1` is a syntax error: the `/` has nothing on its left.
  lemma ExampleStarSlash()
    ensures Parse("1;1 + 3 */ 1;1") == Err(SyntaxError(SyntaxPrefix + "/1;1"))
  {
    var a := Literal("1", "1");
    var c := ['/'] + a;
    var t := "3" + ['*'] + c;
    var s := a + ['+'] + t;
    StarSlashSplit();
    assert Parse(a, s) == Ok(1.0 + 1.0 / 60.0) by {
      DigitValues();
      ParseLiteral("1", "1", s);
    }
    assert Parse("3", t) == Ok(3.0) by {
      DigitValues();
      ParseNumeral("3", t);
    }
    SlashOperand(t);
    StarSlashText();
  }

  /** The normalised texts the three syntax errors above name. */
  lemma LetterText()
    ensures "1;1a" + "+" + ("3" + ['*'] + Literal("1", "1")) == "1;1a+3*1;1"
  {
  }

  lemma LeadingStarText()
    ensures "*3" + ['*'] + Literal("1", "1") == "*3*1;1"
  {
  }

  lemma StarSlashText()
    ensures ['/'] + Literal("1", "1") == "/1;1"
  {
  }
}
