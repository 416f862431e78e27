/** The text summariser (backend/Services/TextService.cs): the page's visible
    text has every white-space run replaced by one space, is trimmed, is cut
    to MaxTextBytes characters, and is sent to the chat model once. */
module TextService {
  import opened Wrappers
  import opened Strings
  import opened Exceptions
  import opened Collaborators

  const MaxTextBytes: nat := 1000
  const SummaryPrompt: string := "Summarize this text in 3 sentences:\n\n"

  predicate StartsWithWhiteSpace(s: string) { s != [] && IsWhiteSpace(s[0]) }
  predicate EndsWithWhiteSpace(s: string) { s != [] && IsWhiteSpace(s[|s| - 1]) }

  /** The only white-space character is ' ', and no two are adjacent. */
  predicate Collapsed(s: string) {
    && (forall i :: 0 <= i < |s| && IsWhiteSpace(s[i]) ==> s[i] == ' ')
    && (forall i :: 0 <= i < |s| - 1 ==> !(IsWhiteSpace(s[i]) && IsWhiteSpace(s[i + 1])))
  }

  /** String.TrimStart(): drops the leading white space and nothing else. */
  function TrimStart(s: string): (r: string)
    ensures |r| <= |s| && r == s[|s| - |r|..]
    ensures IsBlank(s[..|s| - |r|])
    ensures !StartsWithWhiteSpace(r)
  {
    if s != [] && IsWhiteSpace(s[0]) then
      var r := TrimStart(s[1..]);
      assert s[..|s| - |r|] == [s[0]] + s[1..][..|s| - 1 - |r|];
      r
    else s
  }

  /** String.TrimEnd(): drops the trailing white space and nothing else. */
  function TrimEnd(s: string): (r: string)
    ensures |r| <= |s| && r == s[..|r|]
    ensures IsBlank(s[|r|..])
    ensures !EndsWithWhiteSpace(r)
  {
    if s != [] && IsWhiteSpace(s[|s| - 1]) then
      var r := TrimEnd(s[..|s| - 1]);
      assert s[|r|..] == s[..|s| - 1][|r|..] + [s[|s| - 1]];
      r
    else s
  }

  /** String.Trim(): a slice of the input starting where its leading white
      space ends, with white space at neither end. */
  function Trim(s: string): (r: string)
    ensures var k := |s| - |TrimStart(s)|; k + |r| <= |s| && r == s[k..k + |r|]
    ensures !StartsWithWhiteSpace(r) && !EndsWithWhiteSpace(r)
  {
    var t := TrimStart(s);
    TrimmedSlice(s, t, TrimEnd(t));
    TrimEnd(t)
  }

  /** Trimming the end of the trimmed start leaves a slice of the input. */
  lemma TrimmedSlice(s: string, t: string, r: string)
    requires t == TrimStart(s) && r == TrimEnd(t)
    ensures var k := |s| - |t|; k + |r| <= |s| && r == s[k..k + |r|]
    ensures !StartsWithWhiteSpace(r) && !EndsWithWhiteSpace(r)
  {
    PrefixOfSuffix(s, t, r);
  }

  /** Trim cuts off only white space: what lies before and after the
      trimmed slice is blank. */
  lemma TrimCutsOnlyWhiteSpace(s: string)
    ensures var k := |s| - |TrimStart(s)|;
      IsBlank(s[..k]) && IsBlank(s[k + |Trim(s)|..])
  {
    BlankAfterTrim(s);
  }

  lemma BlankAfterTrim(s: string)
    ensures IsBlank(s[|s| - |TrimStart(s)| + |Trim(s)|..])
  {
    BlankEndOfSlice(s, TrimStart(s), Trim(s));
  }

  /** When a prefix r of a suffix t of s leaves a blank rest of t, the rest
      of s after r is that same blank text. */
  lemma BlankEndOfSlice(s: string, t: string, r: string)
    requires |t| <= |s| && t == s[|s| - |t|..]
    requires |r| <= |t| && r == t[..|r|] && IsBlank(t[|r|..])
    ensures IsBlank(s[|s| - |t| + |r|..])
  {
    assert s[|s| - |t| + |r|..] == t[|r|..];
  }

  /** A prefix of a suffix is a slice, and starts where the suffix does. */
  lemma PrefixOfSuffix(s: string, t: string, r: string)
    requires |t| <= |s| && t == s[|s| - |t|..]
    requires |r| <= |t| && r == t[..|r|]
    ensures r == s[|s| - |t|..|s| - |t| + |r|]
    ensures r != [] ==> r[0] == t[0]
  {
  }

  /** Regex.Replace(s, @"\s+", " "): every maximal white-space run becomes
      one space.  White space is kept at the start or end exactly when the
      input has it there, and an empty input stays empty. */
  function CollapseWhiteSpace(s: string): (r: string)
    ensures |r| <= |s|
    ensures r == [] <==> s == []
    ensures StartsWithWhiteSpace(r) <==> StartsWithWhiteSpace(s)
    ensures EndsWithWhiteSpace(r) <==> EndsWithWhiteSpace(s)
    ensures Collapsed(r)
    decreases |s|
  {
    if s == [] then []
    else if IsWhiteSpace(s[0]) then
      var t := TrimStart(s[1..]);
      var c := CollapseWhiteSpace(t);
      CollapseRunStep(s, t, c);
      " " + c
    else
      var c := CollapseWhiteSpace(s[1..]);
      CollapseCharStep(s, c);
      [s[0]] + c
  }

  /** A leading white-space run becomes one space before the collapsed rest. */
  lemma CollapseRunStep(s: string, t: string, c: string)
    requires s != [] && IsWhiteSpace(s[0])
    requires |t| <= |s| - 1 && t == s[|s| - |t|..] && !StartsWithWhiteSpace(t)
    requires t == [] ==> IsBlank(s)
    requires |c| <= |t| && (c == [] <==> t == [])
    requires !StartsWithWhiteSpace(c) && (EndsWithWhiteSpace(c) <==> EndsWithWhiteSpace(t))
    requires Collapsed(c)
    ensures |" " + c| <= |s|
    ensures StartsWithWhiteSpace(" " + c)
    ensures EndsWithWhiteSpace(" " + c) <==> EndsWithWhiteSpace(s)
    ensures Collapsed(" " + c)
  {
    assert t != [] ==> t[|t| - 1] == s[|s| - 1];
    assert (" " + c)[0] == ' ';
    CollapsedCons(' ', c);
  }

  /** A character that is not white space is kept before the collapsed rest. */
  lemma CollapseCharStep(s: string, c: string)
    requires s != [] && !IsWhiteSpace(s[0])
    requires |c| <= |s| - 1 && (c == [] <==> |s| == 1)
    requires EndsWithWhiteSpace(c) <==> EndsWithWhiteSpace(s[1..])
    requires Collapsed(c)
    ensures |[s[0]] + c| <= |s|
    ensures !StartsWithWhiteSpace([s[0]] + c)
    ensures EndsWithWhiteSpace([s[0]] + c) <==> EndsWithWhiteSpace(s)
    ensures Collapsed([s[0]] + c)
  {
    assert s[1..] != [] ==> s[1..][|s| - 2] == s[|s| - 1];
    CollapsedCons(s[0], c);
  }

  lemma CollapsedCons(x: char, c: string)
    requires Collapsed(c)
    requires IsWhiteSpace(x) ==> x == ' ' && !StartsWithWhiteSpace(c)
    ensures Collapsed([x] + c)
  {
    var r := [x] + c;
    forall i | 0 <= i < |r| && IsWhiteSpace(r[i]) ensures r[i] == ' ' {
      if i > 0 { assert r[i] == c[i - 1]; }
    }
    forall i | 0 <= i < |r| - 1 ensures !(IsWhiteSpace(r[i]) && IsWhiteSpace(r[i + 1])) {
      if i > 0 { assert r[i] == c[i - 1] && r[i + 1] == c[i]; }
    }
  }

  /** Regex.Replace(...).Trim() */
  function Normalize(raw: string): (t: string)
    ensures Collapsed(t)
    ensures !StartsWithWhiteSpace(t) && !EndsWithWhiteSpace(t)
  {
    var c := CollapseWhiteSpace(raw);
    TrimKeepsCollapsed(c);
    Trim(c)
  }

  lemma TrimKeepsCollapsed(c: string)
    requires Collapsed(c)
    ensures Collapsed(Trim(c))
  {
    var k := |c| - |TrimStart(c)|;
    CollapsedSlice(c, k, k + |Trim(c)|);
  }

  /** The text put in the prompt: the normalised text when it has at most
      MaxTextBytes characters, otherwise its first MaxTextBytes characters. */
  function PrepareInput(raw: string): (t: string)
    ensures |t| <= MaxTextBytes
    ensures t <= Normalize(raw)
    ensures |Normalize(raw)| <= MaxTextBytes ==> t == Normalize(raw)
    ensures |Normalize(raw)| > MaxTextBytes ==> |t| == MaxTextBytes
    ensures Collapsed(t)
  {
    var n := Normalize(raw);
    var t := if |n| > MaxTextBytes then n[..MaxTextBytes] else n;
    CollapsedSlice(n, 0, |t|);
    t
  }

  /** SummarizeTextAsync, given the page's visible text (or the exception the
      download threw): one chat call at most, and its reply is returned as is. */
  function SummarizeText(innerText: Result<string, Exception>, chat: Chat): (run: Run)
    ensures innerText.Failure? ==> run.result == Failure(innerText.error) && run.calls == []
    ensures innerText.Success? ==>
      && |run.calls| == 1
      && run.calls[0] == SummaryPrompt + PrepareInput(innerText.value)
      && run.result == chat(0, run.calls[0])
  {
    match innerText
    case Failure(e) => Run(Failure(e), [])
    case Success(text) =>
      var prompt := SummaryPrompt + PrepareInput(text);
      Run(chat(0, prompt), [prompt])
  }

  lemma CollapsedSlice(s: string, a: int, b: int)
    requires 0 <= a <= b <= |s| && Collapsed(s)
    ensures Collapsed(s[a..b])
  {
    var t := s[a..b];
    forall i | 0 <= i < |t| - 1 ensures !(IsWhiteSpace(t[i]) && IsWhiteSpace(t[i + 1])) {
      assert t[i] == s[a + i] && t[i + 1] == s[a + i + 1];
    }
  }

  // ---------------------------------------------------------------------
  // Normalisation changes white space only: the words are kept, in order.

  /** The longest prefix without white space. */
  function TakeWord(s: string): (w: string)
    ensures w <= s
    ensures forall i :: 0 <= i < |w| ==> !IsWhiteSpace(w[i])
    ensures |w| == |s| || IsWhiteSpace(s[|w|])
  {
    if s == [] || IsWhiteSpace(s[0]) then [] else [s[0]] + TakeWord(s[1..])
  }

  /** The maximal runs of non-white-space characters, in order. */
  function Words(s: string): seq<string>
    decreases |s|
  {
    if s == [] then []
    else if IsWhiteSpace(s[0]) then Words(TrimStart(s[1..]))
    else
      var w := TakeWord(s);
      [w] + Words(s[|w|..])
  }

  lemma {:induction false} CollapseAfterWord(w: string, rest: string)
    requires forall i :: 0 <= i < |w| ==> !IsWhiteSpace(w[i])
    ensures CollapseWhiteSpace(w + rest) == w + CollapseWhiteSpace(rest)
    decreases |w|
  {
    if w != [] {
      assert (w + rest)[1..] == w[1..] + rest;
      CollapseAfterWord(w[1..], rest);
    } else {
      assert w + rest == rest;
    }
  }

  lemma {:induction false} TakeWordBeforeSpace(w: string, t: string)
    requires forall i :: 0 <= i < |w| ==> !IsWhiteSpace(w[i])
    requires !(t != [] && !IsWhiteSpace(t[0]))
    ensures TakeWord(w + t) == w
    decreases |w|
  {
    if w != [] {
      assert (w + t)[1..] == w[1..] + t;
      TakeWordBeforeSpace(w[1..], t);
    } else {
      assert w + t == t;
    }
  }

  /** Collapsing keeps the words of the text, in order. */
  lemma {:induction false} CollapseKeepsWords(s: string)
    ensures Words(CollapseWhiteSpace(s)) == Words(s)
    decreases |s|
  {
    if s == [] {
    } else if IsWhiteSpace(s[0]) {
      var t := TrimStart(s[1..]);
      var c := CollapseWhiteSpace(t);
      assert (" " + c)[1..] == c;
      assert TrimStart(c) == c;
      CollapseKeepsWords(t);
    } else {
      var w := TakeWord(s);
      var rest := s[|w|..];
      assert s == w + rest;
      CollapseAfterWord(w, rest);
      var c := CollapseWhiteSpace(rest);
      TakeWordBeforeSpace(w, c);
      assert (w + c)[|w|..] == c;
      CollapseKeepsWords(rest);
    }
  }

  lemma {:induction false} WordsOfBlank(b: string)
    requires IsBlank(b)
    ensures Words(b) == []
    decreases |b|
  {
    if b != [] {
      WordsOfBlank(TrimStart(b[1..]));
    }
  }

  lemma {:induction false} TrimStartBeforeBlank(z: string, b: string)
    requires IsBlank(b)
    ensures TrimStart(z) != [] ==> TrimStart(z + b) == TrimStart(z) + b
    ensures TrimStart(z) == [] ==> TrimStart(z + b) == []
    decreases |z|
  {
    if z == [] {
      assert z + b == b;
      BlankTrimsToEmpty(b);
    } else if IsWhiteSpace(z[0]) {
      assert (z + b)[1..] == z[1..] + b;
      TrimStartBeforeBlank(z[1..], b);
    }
  }

  lemma {:induction false} BlankTrimsToEmpty(b: string)
    requires IsBlank(b)
    ensures TrimStart(b) == []
    decreases |b|
  {
    if b != [] {
      BlankTrimsToEmpty(b[1..]);
    }
  }

  lemma {:induction false} TakeWordBeforeBlank(y: string, b: string)
    requires IsBlank(b)
    ensures TakeWord(y + b) == TakeWord(y)
    decreases |y|
  {
    if y == [] {
      assert y + b == b;
    } else if !IsWhiteSpace(y[0]) {
      assert (y + b)[1..] == y[1..] + b;
      TakeWordBeforeBlank(y[1..], b);
    }
  }

  /** Trailing white space has no words. */
  lemma {:induction false} WordsBeforeBlank(y: string, b: string)
    requires IsBlank(b)
    ensures Words(y + b) == Words(y)
    decreases |y|
  {
    if y == [] {
      assert y + b == b;
      WordsOfBlank(b);
    } else if IsWhiteSpace(y[0]) {
      var z := y[1..];
      assert (y + b)[1..] == z + b;
      TrimStartBeforeBlank(z, b);
      if TrimStart(z) != [] {
        WordsBeforeBlank(TrimStart(z), b);
      }
    } else {
      var w := TakeWord(y);
      TakeWordBeforeBlank(y, b);
      assert (y + b)[|w|..] == y[|w|..] + b;
      WordsBeforeBlank(y[|w|..], b);
    }
  }

  lemma {:induction false} WordsAfterBlank(s: string)
    ensures Words(TrimStart(s)) == Words(s)
    decreases |s|
  {
    if s != [] && IsWhiteSpace(s[0]) {
      WordsAfterBlank(s[1..]);
    }
  }

  /** Normalising keeps the words of the text, in order. */
  lemma NormalizeKeepsWords(raw: string)
    ensures Words(Normalize(raw)) == Words(raw)
  {
    var c := CollapseWhiteSpace(raw);
    var t := TrimStart(c);
    var r := TrimEnd(t);
    assert Normalize(raw) == r;
    CollapseKeepsWords(raw);
    WordsAfterBlank(c);
    var b := t[|r|..];
    SplitAt(t, |r|);
    WordsBeforeBlank(r, b);
    calc {
      Words(r);
      Words(r + b);
      Words(t);
      Words(c);
      Words(raw);
    }
  }

  lemma SplitAt(t: string, k: nat)
    requires k <= |t|
    ensures t == t[..k] + t[k..]
  {
  }

  // ---------------------------------------------------------------------
  // Normalising twice is normalising once.

  lemma {:induction false} CollapseFixesCollapsed(s: string)
    requires Collapsed(s)
    ensures CollapseWhiteSpace(s) == s
    decreases |s|
  {
    if s != [] {
      var rest := s[1..];
      CollapsedSlice(s, 1, |s|);
      CollapseFixesCollapsed(rest);
      if IsWhiteSpace(s[0]) {
        assert !StartsWithWhiteSpace(rest) by {
          if rest != [] { assert rest[0] == s[1]; }
        }
        assert TrimStart(rest) == rest;
        assert CollapseWhiteSpace(s) == " " + rest;
      } else {
        assert CollapseWhiteSpace(s) == [s[0]] + rest;
      }
      HeadTail(s);
    }
  }

  lemma HeadTail(s: string)
    requires s != []
    ensures s == [s[0]] + s[1..]
  {
  }

  lemma NormalizeIsIdempotent(raw: string)
    ensures Normalize(Normalize(raw)) == Normalize(raw)
  {
    var n := Normalize(raw);
    CollapseFixesCollapsed(n);
    assert TrimStart(n) == n;
    assert TrimEnd(n) == n;
  }

  /** White-space-only text, or none, normalises to the empty string. */
  lemma {:induction false} BlankNormalizesToEmpty(raw: string)
    ensures Normalize(raw) == [] <==> IsBlank(raw)
  {
    if IsBlank(raw) && raw != [] {
      BlankCollapsesToSpace(raw);
    }
    if !IsBlank(raw) {
      var i :| 0 <= i < |raw| && !IsWhiteSpace(raw[i]);
      NonBlankKeepsWord(raw, i);
      NormalizeKeepsWords(raw);
    }
  }

  lemma {:induction false} BlankCollapsesToSpace(b: string)
    requires IsBlank(b) && b != []
    ensures CollapseWhiteSpace(b) == " "
  {
    BlankTrimsToEmpty(b[1..]);
  }

  lemma {:induction false} NonBlankKeepsWord(s: string, i: int)
    requires 0 <= i < |s| && !IsWhiteSpace(s[i])
    ensures Words(s) != []
    decreases |s|
  {
    if IsWhiteSpace(s[0]) {
      var rest := s[1..];
      var t := TrimStart(rest);
      assert rest[i - 1] == s[i];
      TrimStartStopsAtWord(rest, i - 1);
      NonBlankKeepsWord(t, i - 1 - (|rest| - |t|));
    }
  }

  /** TrimStart stops at the first character that is not white space. */
  lemma TrimStartStopsAtWord(s: string, i: int)
    requires 0 <= i < |s| && !IsWhiteSpace(s[i])
    ensures var t := TrimStart(s); |s| - |t| <= i && t[i - (|s| - |t|)] == s[i]
  {
    var t := TrimStart(s);
    var k := |s| - |t|;
    forall j | 0 <= j < k ensures IsWhiteSpace(s[j]) {
      assert s[..k][j] == s[j];
    }
  }
}
