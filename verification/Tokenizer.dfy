/**
  The command tokenizer: a line is cut at every separator character and empty pieces
  are dropped.
 */
module Tokenizer {

  /** `s.find_first_of(seps, from)`, with -1 for `npos`. */
  function FindFirstOf(s: string, seps: string, from: nat): (r: int)
    requires from <= |s|
    ensures r == -1 || from <= r < |s|
    ensures r == -1 ==> forall k :: from <= k < |s| ==> s[k] !in seps
    ensures r != -1 ==> s[r] in seps && forall k :: from <= k < r ==> s[k] !in seps
    decreases |s| - from
  {
    if from == |s| then -1
    else if s[from] in seps then from
    else FindFirstOf(s, seps, from + 1)
  }

  predicate SepFree(t: string, seps: string) {
    forall k :: 0 <= k < |t| ==> t[k] !in seps
  }

  predicate AllSeps(t: string, seps: string) {
    forall k :: 0 <= k < |t| ==> t[k] in seps
  }

  function RunLength(s: string, seps: string): (n: nat)
    ensures n <= |s| && SepFree(s[..n], seps) && (n < |s| ==> s[n] in seps)
  {
    if s == "" || s[0] in seps then 0
    else
      var n := RunLength(s[1..], seps);
      assert s[..n + 1] == [s[0]] + s[1..][..n];
      n + 1
  }

  /** The maximal non-empty separator-free runs of `s`, in order. */
  function Tokens(s: string, seps: string): seq<string>
    decreases |s|
  {
    if s == "" then []
    else if s[0] in seps then Tokens(s[1..], seps)
    else
      var n := RunLength(s, seps);
      [s[..n]] + Tokens(s[n..], seps)
  }

  /** `splitStr2Vec`; positions are of type `int`. */
  method SplitStr2Vec(s: string, splitSep: string) returns (result: seq<string>)
    requires |s| < 0x7fff_ffff
    ensures result == Tokens(s, splitSep)
  {
    hide Tokens, FindFirstOf, RunLength;
    result := [];
    assert s[0..] == s;
    ghost var rest := Tokens(s, splitSep);
    var current, next := 0, 0;
    while next != -1
      invariant next == -1 || (0 <= current <= |s| && rest == Tokens(s[current..], splitSep))
      invariant next == -1 ==> rest == []
      invariant result + rest == Tokens(s, splitSep)
      decreases if next == -1 then 0 else |s| + 1 - current
    {
      next := FindFirstOf(s, splitSep, current);
      var end := if next == -1 then |s| else next;
      rest := if next == -1 then [] else Tokens(s[next + 1..], splitSep);
      NextPiece(result, s, splitSep, current, end, rest);
      if next != current {
        var tmp := s[current..end];
        if tmp != "" {
          result := result + [tmp];
        }
      }
      current := next + 1;
    }
  }

  lemma NextPiece(done: seq<string>, s: string, seps: string, current: nat, end: nat, rest: seq<string>)
    requires current <= end <= |s| && SepFree(s[current..end], seps) && (end < |s| ==> s[end] in seps)
    requires rest == if end == |s| then [] else Tokens(s[end + 1..], seps)
    ensures current == end ==> done + Tokens(s[current..], seps) == done + rest
    ensures current < end ==> done + Tokens(s[current..], seps) == done + [s[current..end]] + rest
  {
    hide Tokens, FindFirstOf, RunLength;
    FirstPiece(s, seps, current, end);
    assert [] + rest == rest;
    assert done + ([s[current..end]] + rest) == done + [s[current..end]] + rest;
  }

  /** The piece up to the next separator, if not empty, is the next token. */
  lemma FirstPiece(s: string, seps: string, current: nat, end: nat)
    requires current <= end <= |s| && SepFree(s[current..end], seps) && (end < |s| ==> s[end] in seps)
    ensures Tokens(s[current..], seps) ==
            (if current == end then [] else [s[current..end]]) + (if end == |s| then [] else Tokens(s[end + 1..], seps))
  {
    var rest := s[end..];
    assert s[current..] == s[current..end] + rest;
    if end < |s| {
      assert rest[1..] == s[end + 1..];
    }
    if current < end {
      TokenThenRest(s[current..end], rest, seps);
    } else {
      assert s[current..] == rest;
    }
  }

  lemma {:induction false} RunLengthIs(t: string, rest: string, seps: string)
    requires SepFree(t, seps) && (rest == "" || rest[0] in seps)
    ensures RunLength(t + rest, seps) == |t|
  {
    if t == "" {
      assert t + rest == rest;
    } else {
      assert (t + rest)[1..] == t[1..] + rest;
      RunLengthIs(t[1..], rest, seps);
    }
  }

  lemma TokenThenRest(t: string, rest: string, seps: string)
    requires t != "" && SepFree(t, seps) && (rest == "" || rest[0] in seps)
    ensures Tokens(t + rest, seps) == [t] + Tokens(rest, seps)
  {
    RunLengthIs(t, rest, seps);
    assert (t + rest)[..|t|] == t && (t + rest)[|t|..] == rest;
  }

  lemma {:induction false} SkipSeps(p: string, s: string, seps: string)
    requires AllSeps(p, seps)
    ensures Tokens(p + s, seps) == Tokens(s, seps)
  {
    if p == "" {
      assert p + s == s;
    } else {
      assert (p + s)[1..] == p[1..] + s;
      SkipSeps(p[1..], s, seps);
    }
  }

  // ----- a line is its tokens and the padding between them -----

  /** `pads[0] + toks[0] + pads[1] + toks[1] + ... + pads[n]` */
  function Padded(pads: seq<string>, toks: seq<string>): string
    requires |pads| == |toks| + 1
    decreases |toks|
  {
    if toks == [] then pads[0] else pads[0] + toks[0] + Padded(pads[1..], toks[1..])
  }

  /** Padding is all separators and not empty between two tokens; tokens are not empty and free of separators. */
  ghost predicate Spaced(pads: seq<string>, toks: seq<string>, seps: string)
    requires |pads| == |toks| + 1
    decreases |toks|
  {
    && AllSeps(pads[0], seps)
    && (toks != [] ==> toks[0] != "" && SepFree(toks[0], seps) && (|toks| > 1 ==> pads[1] != "")
                       && Spaced(pads[1..], toks[1..], seps))
  }

  lemma {:induction false} TokensOfPadded(pads: seq<string>, toks: seq<string>, seps: string)
    requires |pads| == |toks| + 1 && Spaced(pads, toks, seps)
    ensures Tokens(Padded(pads, toks), seps) == toks
    decreases |toks|
  {
    if toks == [] {
      SkipSeps(pads[0], "", seps);
      assert pads[0] + "" == pads[0];
    } else {
      var rest := Padded(pads[1..], toks[1..]);
      TokensOfPadded(pads[1..], toks[1..], seps);
      SkipSeps(pads[0], toks[0] + rest, seps);
      assert pads[0] + toks[0] + rest == pads[0] + (toks[0] + rest);
      assert rest == "" || rest[0] in seps by {
        if pads[1] != "" {
          assert rest[0] == pads[1][0];
        }
      }
      TokenThenRest(toks[0], rest, seps);
    }
  }

  lemma {:induction false} PaddingExists(s: string, seps: string) returns (pads: seq<string>)
    ensures |pads| == |Tokens(s, seps)| + 1 && Spaced(pads, Tokens(s, seps), seps) && Padded(pads, Tokens(s, seps)) == s
    ensures s != "" && s[0] in seps ==> pads[0] != ""
    decreases |s|
  {
    hide RunLength, FindFirstOf;
    if s == "" {
      pads := [""];
    } else if s[0] in seps {
      var more := PaddingExists(s[1..], seps);
      pads := [[s[0]] + more[0]] + more[1..];
      PadLonger(s[0], more, Tokens(s, seps), seps);
    } else {
      var n := RunLength(s, seps);
      RunLengthPositive(s, seps);
      var more := PaddingExists(s[n..], seps);
      pads := [""] + more;
      TokenInFront(s[..n], more, Tokens(s[n..], seps), seps);
    }
  }

  lemma RunLengthPositive(s: string, seps: string)
    requires s != "" && s[0] !in seps
    ensures RunLength(s, seps) > 0
  {
  }

  /** One more separator in front makes the first padding longer. */
  lemma PadLonger(c: char, pads: seq<string>, toks: seq<string>, seps: string)
    requires |pads| == |toks| + 1 && Spaced(pads, toks, seps) && c in seps
    ensures var more := [[c] + pads[0]] + pads[1..];
            Spaced(more, toks, seps) && Padded(more, toks) == [c] + Padded(pads, toks)
  {
    hide RunLength, FindFirstOf, Tokens;
    var more := [[c] + pads[0]] + pads[1..];
    assert more[1..] == pads[1..];
    if toks != [] {
      assert [c] + pads[0] + toks[0] + Padded(pads[1..], toks[1..]) == [c] + (pads[0] + toks[0] + Padded(pads[1..], toks[1..]));
    }
  }

  /** One more token in front needs no padding before it. */
  lemma TokenInFront(t: string, pads: seq<string>, toks: seq<string>, seps: string)
    requires |pads| == |toks| + 1 && Spaced(pads, toks, seps) && t != "" && SepFree(t, seps)
    requires toks != [] ==> pads[0] != ""
    ensures Spaced([""] + pads, [t] + toks, seps) && Padded([""] + pads, [t] + toks) == t + Padded(pads, toks)
  {
    hide RunLength, FindFirstOf, Tokens;
    assert ([""] + pads)[1..] == pads && ([t] + toks)[1..] == toks;
    assert "" + t == t;
  }

  /**
    The tokens of a line are `toks` exactly when the line is `toks` with separators around
    them: splitting a join gives the tokens back, and more padding never changes them.
   */
  lemma TokensCharacterised(s: string, toks: seq<string>, seps: string)
    ensures Tokens(s, seps) == toks <==>
            exists pads: seq<string> :: |pads| == |toks| + 1 && Spaced(pads, toks, seps) && Padded(pads, toks) == s
  {
    if Tokens(s, seps) == toks {
      var pads := PaddingExists(s, seps);
    }
    if pads: seq<string> :| |pads| == |toks| + 1 && Spaced(pads, toks, seps) && Padded(pads, toks) == s {
      TokensOfPadded(pads, toks, seps);
    }
  }
}
