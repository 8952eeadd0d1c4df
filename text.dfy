/** Character classes and the string operations the task-list engine applies
    to task text: JavaScript's `trim()`, `slice(0, 100)`, `replace(/\s+/g, ' ')`,
    the paste filter `replace(/[^a-zA-Z0-9 ]/g, '')` and the keystroke
    classification of the main input field. */
module TaskText {

  /** The longest task text the engine accepts. */
  const MaxLength: nat := 100

  /** Whitespace as `trim()` strips it and `\s` matches it, restricted to the
      ASCII whitespace characters and the no-break space. */
  predicate IsSpace(c: char) {
    c == ' ' || c == '\t' || c == '\n' || c == '\r' ||
    c == '\U{000B}' || c == '\U{000C}' || c == '\U{00A0}'
  }

  /** The character class `[a-zA-Z0-9 ]`. */
  predicate IsAllowed(c: char) {
    ('a' <= c <= 'z') || ('A' <= c <= 'Z') || ('0' <= c <= '9') || c == ' '
  }

  /** `/^[a-zA-Z0-9 ]*$/.test(s)` */
  predicate AllAllowed(s: string) {
    forall k :: 0 <= k < |s| ==> IsAllowed(s[k])
  }

  predicate AllSpace(s: string) {
    forall k :: 0 <= k < |s| ==> IsSpace(s[k])
  }

  /** The characters of `s` that are not whitespace, in order. */
  function NonSpaces(s: string): string {
    if s == [] then []
    else (if IsSpace(s[0]) then [] else [s[0]]) + NonSpaces(s[1..])
  }

  /** Strips the leading whitespace: what is dropped is whitespace, what is
      left does not start with whitespace, and a text that does not start
      with whitespace is left alone. */
  function TrimStart(s: string): (r: string)
    ensures |r| <= |s|
    ensures r == [] || !IsSpace(r[0])
    ensures forall k :: 0 <= k < |s| - |r| ==> IsSpace(s[k])
    ensures r == [] <==> AllSpace(s)
    ensures s == [] || !IsSpace(s[0]) ==> r == s
    ensures NonSpaces(r) == NonSpaces(s)
  {
    if s != [] && IsSpace(s[0]) then
      assert AllSpace(s) <==> AllSpace(s[1..]) by {
        assert forall k :: 0 < k < |s| ==> s[k] == s[1..][k - 1];
      }
      TrimStart(s[1..])
    else s
  }

  /** Strips the trailing whitespace: what is dropped is whitespace, what is
      left does not end with whitespace and starts where `s` starts, and a
      text that does not end with whitespace is left alone. */
  function TrimEnd(s: string): (r: string)
    ensures |r| <= |s|
    ensures r == [] || !IsSpace(r[|r| - 1])
    ensures forall k :: |r| <= k < |s| ==> IsSpace(s[k])
    ensures r == [] <==> AllSpace(s)
    ensures r != [] ==> r[0] == s[0]
    ensures s == [] || !IsSpace(s[|s| - 1]) ==> r == s
  {
    if s != [] && IsSpace(s[|s| - 1]) then
      var p := s[..|s| - 1];
      assert AllSpace(s) <==> AllSpace(p) by {
        assert forall k :: 0 <= k < |p| ==> s[k] == p[k];
      }
      TrimEnd(p)
    else s
  }

  /** `TrimStart(s)` is the suffix of `s` that its leading whitespace leaves. */
  lemma {:induction false} TrimStartIsSuffix(s: string)
    ensures TrimStart(s) == s[|s| - |TrimStart(s)|..]
  {
    if s != [] && IsSpace(s[0]) {
      TrimStartIsSuffix(s[1..]);
    }
  }

  /** `TrimEnd(s)` is the prefix of `s` that its trailing whitespace leaves. */
  lemma {:induction false} TrimEndIsPrefix(s: string)
    ensures TrimEnd(s) == s[..|TrimEnd(s)|]
  {
    if s != [] && IsSpace(s[|s| - 1]) {
      TrimEndIsPrefix(s[..|s| - 1]);
    }
  }

  /** `s.trim()`: neither end of the result is whitespace, and the result is
      empty exactly when `s` is all whitespace. Its exact value is stated by
      `TrimIsStretch`. */
  function Trim(s: string): (r: string)
    ensures |r| <= |s|
    ensures r == [] || (!IsSpace(r[0]) && !IsSpace(r[|r| - 1]))
    ensures r == [] <==> AllSpace(s)
  {
    var t := TrimStart(s);
    assert t != [] ==> !AllSpace(t);
    TrimEnd(t)
  }

  /** The trimmed text is the stretch of `s` from its first to its last
      non-whitespace character: a contiguous piece of `s`, starting where
      the leading whitespace ends, with only whitespace after it. Together
      with `Trim`'s own contract this fixes the value of `s.trim()`. */
  lemma TrimIsStretch(s: string)
    ensures var a := |s| - |TrimStart(s)|; var r := Trim(s);
      a + |r| <= |s| && r == s[a..a + |r|] && AllSpace(s[..a]) && AllSpace(s[a + |r|..])
  {
    var t := TrimStart(s);
    TrimStartIsSuffix(s);
    TrimEndIsPrefix(t);
    TrimPieces(s, t, Trim(s));
  }

  /** A prefix `t` of `s` left by stripping whitespace, then a prefix `r` of
      `t` left the same way, is a stretch of `s` with whitespace around it. */
  lemma TrimPieces(s: string, t: string, r: string)
    requires |t| <= |s| && t == s[|s| - |t|..]
    requires forall k :: 0 <= k < |s| - |t| ==> IsSpace(s[k])
    requires |r| <= |t| && r == t[..|r|]
    requires forall k :: |r| <= k < |t| ==> IsSpace(t[k])
    ensures var a := |s| - |t|;
      a + |r| <= |s| && r == s[a..a + |r|] && AllSpace(s[..a]) && AllSpace(s[a + |r|..])
  {
    var a := |s| - |t|;
    var pre, post := s[..a], s[a + |r|..];
    assert r == s[a..a + |r|];
    assert AllSpace(pre) by {
      forall k | 0 <= k < |pre| ensures IsSpace(pre[k]) {
        assert pre[k] == s[k];
      }
    }
    assert AllSpace(post) by {
      forall k | 0 <= k < |post| ensures IsSpace(post[k]) {
        assert post[k] == t[|r| + k];
      }
    }
  }

  /** Trimming a trimmed text changes nothing; the engine relies on this when
      it trims an already trimmed input again (script.js:69) and when a
      stored text is compared with the trimmed texts on the page. */
  lemma TrimIdempotent(s: string)
    ensures Trim(Trim(s)) == Trim(s)
  {
  }

  /** Every whitespace character is a plain space and no two whitespace
      characters are adjacent. */
  predicate SingleSpaced(s: string) {
    forall k :: 0 <= k < |s| && IsSpace(s[k]) ==>
      s[k] == ' ' && (k + 1 < |s| ==> !IsSpace(s[k + 1]))
  }

  /** `s.replace(/\s+/g, ' ')`: every maximal run of whitespace becomes one
      space. The non-whitespace characters are kept in order, the result is no
      longer than `s`, it is empty only when `s` is, and it starts and ends
      with whitespace exactly when `s` does. `CollapseWords` adds that the
      words are kept. */
  function Collapse(s: string): (r: string)
    ensures |r| <= |s|
    ensures r == [] <==> s == []
    ensures s != [] ==> (IsSpace(r[0]) <==> IsSpace(s[0]))
    ensures s != [] ==> (IsSpace(r[|r| - 1]) <==> IsSpace(s[|s| - 1]))
    ensures SingleSpaced(r)
    ensures NonSpaces(r) == NonSpaces(s)
    decreases |s|
  {
    if s == [] then []
    else
      var c := if IsSpace(s[0]) then ' ' else s[0];
      var tail := if IsSpace(s[0]) then TrimStart(s[1..]) else s[1..];
      var rest := Collapse(tail);
      SpaceRunLast(s);
      NonSpacesCons(s[0], s[1..]);
      NonSpacesCons(c, rest);
      SingleSpacedCons(c, rest);
      [c] + rest
  }

  lemma NonSpacesCons(c: char, s: string)
    ensures NonSpaces([c] + s) == (if IsSpace(c) then [] else [c]) + NonSpaces(s)
  {
    assert ([c] + s)[1..] == s;
  }

  lemma SingleSpacedCons(c: char, s: string)
    requires SingleSpaced(s)
    requires IsSpace(c) ==> c == ' ' && (s == [] || !IsSpace(s[0]))
    ensures SingleSpaced([c] + s)
  {
    var r := [c] + s;
    forall k | 0 <= k < |r| && IsSpace(r[k])
      ensures r[k] == ' ' && (k + 1 < |r| ==> !IsSpace(r[k + 1]))
    {
      if k > 0 {
        assert r[k] == s[k - 1];
        assert k + 1 < |r| ==> r[k + 1] == s[k];
      }
    }
  }

  /** The words of `s`: its maximal runs of non-whitespace characters, in
      order. */
  function Words(s: string): seq<string>
    decreases |s|
  {
    if s == [] then []
    else if IsSpace(s[0]) then Words(s[1..])
    else
      var ws := Words(s[1..]);
      if |s| > 1 && !IsSpace(s[1]) && ws != [] then [[s[0]] + ws[0]] + ws[1..]
      else [[s[0]]] + ws
  }

  /** Leading whitespace holds no word. */
  lemma {:induction false} WordsTrimStart(s: string)
    ensures Words(TrimStart(s)) == Words(s)
  {
    if s != [] && IsSpace(s[0]) {
      WordsTrimStart(s[1..]);
    }
  }

  /** Collapsing whitespace keeps the words, in order and each intact.
      With `Collapse`'s own contract (single plain spaces only, the same kind
      of first and of last character) this fixes the collapsed text. */
  lemma {:induction false} CollapseWords(s: string)
    ensures Words(Collapse(s)) == Words(s)
    decreases |s|
  {
    if s != [] {
      var r := Collapse(s);
      var c := if IsSpace(s[0]) then ' ' else s[0];
      var tail := if IsSpace(s[0]) then TrimStart(s[1..]) else s[1..];
      var rest := Collapse(tail);
      assert r == [c] + rest;
      assert r[1..] == rest;
      CollapseWords(tail);
      if IsSpace(s[0]) {
        WordsTrimStart(s[1..]);
        assert Words(r) == Words(rest);
      } else {
        assert Words(s[1..]) == Words(rest);
      }
    }
  }

  /** A text that starts with whitespace ends in whitespace when nothing
      is left after its first whitespace run, and otherwise ends where what
      is left ends. */
  lemma SpaceRunLast(s: string)
    requires s != []
    ensures IsSpace(s[0]) && TrimStart(s[1..]) == [] ==> IsSpace(s[|s| - 1])
    ensures IsSpace(s[0]) && TrimStart(s[1..]) != [] ==>
      TrimStart(s[1..])[|TrimStart(s[1..])| - 1] == s[|s| - 1]
  {
    if IsSpace(s[0]) && |s| > 1 {
      assert s[|s| - 1] == s[1..][|s| - 2];
      TrimStartIsSuffix(s[1..]);
    }
  }

  /** `slice(0, 100)`, applied only when the text is longer than 100. */
  function Truncate(s: string): (r: string)
    ensures |r| <= MaxLength && |r| <= |s|
    ensures r == s[..|r|]
    ensures |s| <= MaxLength ==> r == s
    ensures |s| > MaxLength ==> |r| == MaxLength
  {
    if |s| > MaxLength then s[..MaxLength] else s
  }

  /** The text the blur handler of an edited task settles on: trimmed,
      sliced to 100 characters, whitespace runs collapsed (scripting.js:258-264). */
  function BlurText(live: string): string {
    Collapse(Truncate(Trim(live)))
  }

  /** The settled text is at most 100 characters long, single-spaced, and
      empty exactly when the live text was all whitespace. */
  lemma BlurTextBounds(live: string)
    ensures |BlurText(live)| <= MaxLength
    ensures SingleSpaced(BlurText(live))
    ensures BlurText(live) == [] <==> AllSpace(live)
  {
    var t := Trim(live);
    assert Truncate(t) == [] <==> t == [];
  }

  /** `r` can be obtained from `s` by deleting characters. */
  predicate IsSubsequence(r: string, s: string)
    decreases |s|
  {
    if r == [] then true
    else if s == [] then false
    else if r[0] == s[0] then IsSubsequence(r[1..], s[1..])
    else IsSubsequence(r, s[1..])
  }

  /** The paste filter `replace(/[^a-zA-Z0-9 ]/g, '')` (script.js:94, 104):
      the result holds only allowed characters, it is a subsequence of the
      pasted text (order kept), and it keeps every occurrence of every allowed
      character. */
  function PasteFilter(s: string): (r: string)
    ensures AllAllowed(r)
    ensures IsSubsequence(r, s)
    ensures forall c :: IsAllowed(c) ==> multiset(r)[c] == multiset(s)[c]
  {
    if s == [] then []
    else if IsAllowed(s[0]) then
      var rest := PasteFilter(s[1..]);
      assert s == [s[0]] + s[1..];
      [s[0]] + rest
    else
      var rest := PasteFilter(s[1..]);
      assert s == [s[0]] + s[1..];
      rest
  }

  /** Text made only of allowed characters passes the filter unchanged. */
  lemma {:induction false} PasteFilterKeepsAllowed(s: string)
    requires AllAllowed(s)
    ensures PasteFilter(s) == s
  {
    if s != [] {
      PasteFilterKeepsAllowed(s[1..]);
    }
  }

  /** Filtering twice is filtering once. */
  lemma PasteFilterIdempotent(s: string)
    ensures PasteFilter(PasteFilter(s)) == PasteFilter(s)
  {
    PasteFilterKeepsAllowed(PasteFilter(s));
  }

  /** What a keystroke in the main input field does (script.js:60-88). */
  datatype KeyOutcome =
    | TooLong              // blocked: the trimmed input already has 100 characters
    | Submit(text: string) // Enter on a non-empty input: the trimmed text is offered for adding
    | Special              // blocked: the key is not in [a-zA-Z0-9 ]
    | Typed                // the key takes its default effect

  /** Classifies a keydown on the main input. A submitted text is the trimmed
      input, non-empty and shorter than 100 characters; once the trimmed input
      reaches 100 characters every key but Backspace is blocked, Enter
      included, and below that nothing is blocked for length; below it a key
      outside `[a-zA-Z0-9 ]` other than Backspace is blocked as special, and
      every other key (Enter on an empty input included) takes its default
      effect; Backspace is never blocked. */
  function ClassifyMainKey(input: string, key: string): (o: KeyOutcome)
    ensures o.Submit? ==> key == "Enter" && o.text == Trim(input) && 0 < |o.text| < MaxLength
    ensures |Trim(input)| >= MaxLength ==> (o.TooLong? <==> key != "Backspace") && !o.Submit?
    ensures key == "Enter" && 0 < |Trim(input)| < MaxLength ==> o == Submit(Trim(input))
    ensures |Trim(input)| < MaxLength ==> !o.TooLong?
    ensures o.Special? <==> |Trim(input)| < MaxLength && key != "Backspace" && !AllAllowed(key)
    ensures o == Typed <==>
      key == "Backspace" || (|Trim(input)| < MaxLength && AllAllowed(key) && !(key == "Enter" && Trim(input) != []))
    ensures key == "Backspace" ==> o == Typed
  {
    var inputVal := Trim(input);
    TrimIdempotent(input);
    if |inputVal| >= MaxLength && key != "Backspace" then TooLong
    else if key == "Enter" && |Trim(inputVal)| > 0 then Submit(inputVal)
    else if key != "Backspace" && !AllAllowed(key) then Special
    else Typed
  }
}
