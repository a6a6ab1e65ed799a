/** argser/utils.py: visible width of text with ANSI colour codes, adding
    colour, and reading a boolean from text. */
module Utils {
  import opened Py

  const ESC: char := '\U{1B}'

  /** The colour numbers `BLACK, RED, ... = range(8)`. */
  const BLACK: int := 0
  const RED: int := 1
  const GREEN: int := 2
  const YELLOW: int := 3
  const BLUE: int := 4
  const MAGENTA: int := 5
  const CYAN: int := 6
  const WHITE: int := 7

  predicate NoEsc(s: string) {
    forall i :: 0 <= i < |s| ==> s[i] != ESC
  }

  // ---------------------------------------------------------------------------
  // The RE_INV_CODES pattern  \x1b\[\d+[;\d]*m | \x1b\[\d*;\d*;\d*m

  /** The character class of a run: `[;\d]` when `code` holds, `\d` otherwise. */
  predicate InRun(c: char, code: bool) {
    IsDigit(c) || (code && c == ';')
  }

  /** Length of the maximal run of `InRun(_, code)` characters from index `i`. */
  function Run(s: string, i: nat, code: bool): (n: nat)
    requires i <= |s|
    ensures i + n <= |s|
    ensures forall k :: i <= k < i + n ==> InRun(s[k], code)
    ensures i + n < |s| ==> !InRun(s[i + n], code)
    decreases |s| - i
  {
    if i < |s| && InRun(s[i], code) then 1 + Run(s, i + 1, code) else 0
  }

  /** Length of a match of the first alternative at the start of `s`, 0 if
      none: a digit after `ESC [`, then the maximal run of `[;0-9]` (greedy
      matching gains nothing by backtracking, as `m` is in neither class),
      then `m`. */
  function Alt1(s: string): (k: nat)
    ensures k <= |s|
    ensures k > 0 ==> k >= 4 && s[0] == ESC && s[1] == '[' && s[k - 1] == 'm'
  {
    if |s| >= 3 && s[0] == ESC && s[1] == '[' && IsDigit(s[2]) then
      var e := 2 + Run(s, 2, true);
      if e < |s| && s[e] == 'm' then e + 1 else 0
    else 0
  }

  /** Length of a match of the second alternative at the start of `s`, 0 if
      none: `ESC [`, three digit runs separated by two `;`, then `m`. The
      text between `[` and `m` is then a `[;0-9]` run holding exactly two
      `;`, and as `m` is not in that class it is the maximal such run. */
  function Alt2(s: string): (k: nat)
    ensures k <= |s|
    ensures k > 0 ==> k >= 5 && s[0] == ESC && s[1] == '[' && s[k - 1] == 'm'
  {
    if |s| >= 2 && s[0] == ESC && s[1] == '[' then
      var e := 2 + Run(s, 2, true);
      if e < |s| && s[e] == 'm' && multiset(s[2..e])[';'] == 2 then e + 1 else 0
    else 0
  }

  /** Length of a match of RE_INV_CODES at the start of `s`, 0 if none; the
      second alternative is tried only when the first fails. */
  function CodeLen(s: string): (k: nat)
    ensures k <= |s|
    ensures k > 0 ==> k >= 3 && s[0] == ESC && s[1] == '[' && s[k - 1] == 'm'
  {
    if Alt1(s) > 0 then Alt1(s) else Alt2(s)
  }

  /** `RE_INV_CODES.sub("", s)`: scanning left to right, every match is
      removed and scanning resumes after it; other characters are kept. */
  function Strip(s: string): (r: string)
    ensures |r| <= |s|
    decreases |s|
  {
    if s == [] then []
    else if CodeLen(s) > 0 then Strip(s[CodeLen(s)..])
    else [s[0]] + Strip(s[1..])
  }

  /** `vlen(s)`: the visible width, never more than the raw length. */
  function VisibleLen(s: string): (n: nat)
    ensures n <= |s|
  {
    |Strip(s)|
  }

  /** Every ESC the scanner meets opens a complete colour code: no code is cut
      off at the end of `s`, so gluing more text after `s` changes nothing in
      how `s` is scanned. */
  predicate CodesClosed(s: string)
    decreases |s|
  {
    if s == [] then true
    else if CodeLen(s) > 0 then CodesClosed(s[CodeLen(s)..])
    else s[0] != ESC && CodesClosed(s[1..])
  }

  lemma {:induction false} StripNoEsc(s: string)
    requires NoEsc(s)
    ensures Strip(s) == s && CodesClosed(s)
    decreases |s|
  {
    if s != [] {
      StripNoEsc(s[1..]);
    }
  }

  /** `vlen(s) == len(s)` when `s` holds no ESC character. */
  lemma VisibleLenNoEsc(s: string)
    requires NoEsc(s)
    ensures VisibleLen(s) == |s|
  {
    StripNoEsc(s);
  }

  lemma {:induction false} RunStable(s: string, t: string, i: nat, code: bool)
    requires i <= |s| && i + Run(s, i, code) < |s|
    ensures Run(s + t, i, code) == Run(s, i, code)
    decreases |s| - i
  {
    if InRun(s[i], code) {
      RunStable(s, t, i + 1, code);
    }
  }

  lemma {:induction false} RunUpTo(s: string, i: nat, j: nat, code: bool)
    requires i <= j < |s|
    requires forall k :: i <= k < j ==> InRun(s[k], code)
    requires !InRun(s[j], code)
    ensures Run(s, i, code) == j - i
    decreases j - i
  {
    if i < j {
      RunUpTo(s, i + 1, j, code);
    }
  }

  lemma Alt1Stable(s: string, t: string)
    requires Alt1(s) > 0
    ensures Alt1(s + t) == Alt1(s)
  {
    var u := s + t;
    assert u[0] == s[0] && u[1] == s[1] && u[2] == s[2];
    RunStable(s, t, 2, true);
    assert u[Alt1(s) - 1] == s[Alt1(s) - 1];
  }

  lemma Alt2Stable(s: string, t: string)
    requires Alt2(s) > 0
    ensures Alt2(s + t) == Alt2(s)
  {
    var u := s + t;
    var e := Alt2(s) - 1;
    assert u[0] == s[0] && u[1] == s[1];
    RunStable(s, t, 2, true);
    assert u[e] == s[e] && u[2..e] == s[2..e];
  }

  /** When the second alternative matches, the text after `ESC [` does not
      start with a digit: otherwise the first alternative takes the same
      match. */
  lemma Alt2NoDigit(s: string)
    requires Alt2(s) > 0 && Alt1(s) == 0
    ensures !IsDigit(s[2])
  {
  }

  /** A code matched at the start of `s` is matched the same way whatever
      follows `s`. */
  lemma CodeLenStable(s: string, t: string)
    requires CodeLen(s) > 0
    ensures CodeLen(s + t) == CodeLen(s)
  {
    if Alt1(s) > 0 {
      Alt1Stable(s, t);
    } else {
      Alt2NoDigit(s);
      var u := s + t;
      assert u[0] == s[0] && u[1] == s[1] && u[2] == s[2];
      Alt2Stable(s, t);
    }
  }

  /** How far one step of the scanner moves from the start of `s`. */
  function StepLen(s: string): (k: nat)
    requires s != []
    ensures 0 < k <= |s|
  {
    if CodeLen(s) > 0 then CodeLen(s) else 1
  }

  /** What one step of the scanner keeps from the start of `s`. */
  function StepKeep(s: string): string
    requires s != []
  {
    if CodeLen(s) > 0 then [] else [s[0]]
  }

  /** The scanner skips a code of length `k` at the start of `u`. */
  lemma StripAtCode(u: string, k: nat)
    requires 0 < k && CodeLen(u) == k
    ensures Strip(u) == Strip(u[k..]) && (CodesClosed(u) == CodesClosed(u[k..]))
  {
  }

  lemma StripCodeStep(a: string, b: string)
    requires CodeLen(a) > 0
    ensures Strip(a) == Strip(a[CodeLen(a)..]) && CodesClosed(a) == CodesClosed(a[CodeLen(a)..])
    ensures Strip(a + b) == Strip(a[CodeLen(a)..] + b)
    ensures CodesClosed(a + b) == CodesClosed(a[CodeLen(a)..] + b)
  {
    var k := CodeLen(a);
    CodeLenStable(a, b);
    assert (a + b)[k..] == a[k..] + b;
  }

  lemma StripPlainStep(a: string, b: string)
    requires a != [] && a[0] != ESC
    ensures Strip(a) == [a[0]] + Strip(a[1..]) && CodesClosed(a) == CodesClosed(a[1..])
    ensures Strip(a + b) == [a[0]] + Strip(a[1..] + b)
    ensures CodesClosed(a + b) == CodesClosed(a[1..] + b)
  {
    assert CodeLen(a) == 0;
    var u := a + b;
    assert u[0] == a[0];
    assert CodeLen(u) == 0;
    assert u[1..] == a[1..] + b;
  }

  /** One step of the scanner, over `a` alone and over `a + b`, when `a` is
      closed: the step is the same in both. */
  lemma StripConcatStep(a: string, b: string)
    requires a != [] && CodesClosed(a)
    ensures Strip(a) == StepKeep(a) + Strip(a[StepLen(a)..])
    ensures CodesClosed(a[StepLen(a)..])
    ensures Strip(a + b) == StepKeep(a) + Strip(a[StepLen(a)..] + b)
    ensures CodesClosed(a + b) == CodesClosed(a[StepLen(a)..] + b)
  {
    if CodeLen(a) > 0 {
      StripCodeStep(a, b);
      ConcatEmpty([], Strip(a[CodeLen(a)..]));
      ConcatEmpty([], Strip(a[CodeLen(a)..] + b));
    } else {
      StripPlainStep(a, b);
    }
  }

  /** Stripping distributes over concatenation once the left part has no
      colour code cut off at its end. */
  lemma {:induction false} StripConcat(a: string, b: string)
    requires CodesClosed(a)
    ensures Strip(a + b) == Strip(a) + Strip(b)
    ensures CodesClosed(a + b) == CodesClosed(b)
    decreases |a|
  {
    if a == [] {
      ConcatEmpty(a, b);
      ConcatEmpty(Strip(a), Strip(b));
    } else {
      var rest := a[StepLen(a)..];
      StripConcatStep(a, b);
      StripConcat(rest, b);
      ConcatAssoc(StepKeep(a), Strip(rest), Strip(b));
    }
  }

  lemma VisibleLenConcat(a: string, b: string)
    requires CodesClosed(a)
    ensures VisibleLen(a + b) == VisibleLen(a) + VisibleLen(b)
  {
    StripConcat(a, b);
  }

  // ---------------------------------------------------------------------------
  // Colours

  /** `add_color(text, fg)`: no colour leaves the text alone; otherwise the
      text (a blank for empty text) is wrapped in `ESC[<30+fg>m ... ESC[0m`. */
  function AddColor(text: string, fg: Option<int>): (r: string)
    ensures fg.None? ==> r == text
    ensures fg.Some? ==> |r| == |IntToString(30 + fg.value)| + |text| + (if text == [] then 1 else 0) + 7
  {
    if fg.None? then text
    else
      var body := if text == [] then " " else text;
      [ESC, '['] + IntToString(30 + fg.value) + "m" + body + [ESC, '[', '0', 'm']
  }

  function Red(text: string): string { AddColor(text, Some(RED)) }
  function Green(text: string): string { AddColor(text, Some(GREEN)) }
  function Yellow(text: string): string { AddColor(text, Some(YELLOW)) }
  function Blue(text: string): string { AddColor(text, Some(BLUE)) }
  /** `colors.no`. */
  function NoColor(text: string): string { text }

  lemma ResetCode()
    ensures CodeLen([ESC, '[', '0', 'm']) == 4
    ensures Strip([ESC, '[', '0', 'm']) == [] && CodesClosed([ESC, '[', '0', 'm'])
  {
    var s := [ESC, '[', '0', 'm'];
    RunUpTo(s, 2, 3, true);
    assert s[4..] == [];
  }

  /** The opening code `ESC [ <digits> m` is one match of the first
      alternative, whatever follows it. */
  lemma OpenCode(d: string, rest: string)
    requires d != [] && forall k :: 0 <= k < |d| ==> IsDigit(d[k])
    ensures CodeLen([ESC, '['] + d + "m" + rest) == 3 + |d|
    ensures ([ESC, '['] + d + "m" + rest)[3 + |d|..] == rest
  {
    var s := [ESC, '['] + d + "m" + rest;
    assert s[2 + |d|] == 'm';
    assert forall k :: 2 <= k < 2 + |d| ==> s[k] == d[k - 2];
    RunUpTo(s, 2, 2 + |d|, true);
  }

  /** For a colour number giving a non-negative code and text without ESC,
      removing the codes from `add_color(text, fg)` gives back the text (a
      blank for empty text), and the result has no code cut off at its end. */
  lemma StripAddColor(text: string, fg: int)
    requires NoEsc(text) && 30 + fg >= 0
    ensures Strip(AddColor(text, Some(fg))) == if text == [] then " " else text
    ensures CodesClosed(AddColor(text, Some(fg)))
  {
    var d := IntToString(30 + fg);
    var body := if text == [] then " " else text;
    var reset := [ESC, '[', '0', 'm'];
    var s := AddColor(text, Some(fg));
    assert s == [ESC, '['] + d + "m" + (body + reset);
    OpenCode(d, body + reset);
    StripAtCode(s, 3 + |d|);
    StripNoEsc(body);
    ResetCode();
    StripConcat(body, reset);
  }

  /** The colour codes add no visible width: `vlen(add_color(text, fg)) ==
      max(len(text), 1)`. */
  lemma VisibleAddColor(text: string, fg: int)
    requires NoEsc(text) && 30 + fg >= 0
    ensures VisibleLen(AddColor(text, Some(fg))) == if text == [] then 1 else |text|
    ensures CodesClosed(AddColor(text, Some(fg)))
  {
    StripAddColor(text, fg);
  }

  /** The text of each part with its codes removed. */
  function StripAll(parts: seq<string>): (r: seq<string>)
    ensures |r| == |parts| && forall i :: 0 <= i < |parts| ==> r[i] == Strip(parts[i])
  {
    seq(|parts|, i requires 0 <= i < |parts| => Strip(parts[i]))
  }

  predicate AllClosed(parts: seq<string>) {
    forall i :: 0 <= i < |parts| ==> CodesClosed(parts[i])
  }

  /** Removing codes commutes with `sep.join(parts)` when every piece has its
      codes closed. */
  lemma {:induction false} StripJoin(sep: string, parts: seq<string>)
    requires CodesClosed(sep) && AllClosed(parts)
    ensures Strip(Join(sep, parts)) == Join(Strip(sep), StripAll(parts))
    ensures CodesClosed(Join(sep, parts))
    decreases |parts|
  {
    if |parts| == 0 {
      StripNoEsc("");
    } else if |parts| > 1 {
      var init := parts[..|parts| - 1];
      var last := parts[|parts| - 1];
      StripJoin(sep, init);
      assert StripAll(parts)[..|parts| - 1] == StripAll(init);
      StripConcat(Join(sep, init), sep);
      StripConcat(Join(sep, init) + sep, last);
    }
  }

  /** The doctests of `vlen` and `add_color`. */
  lemma VisibleLenExample()
    ensures VisibleLen("world") == 5
  {
    VisibleLenNoEsc("world");
  }

  lemma RedCode()
    ensures IntToString(30 + RED) == "31"
  {
    assert NatToString(31) == NatToString(3) + [DigitChar(1)];
  }

  lemma AddColorExample()
    ensures AddColor("text", Some(1)) == [ESC] + "[31mtext" + [ESC] + "[0m"
  {
    RedCode();
  }

  lemma RedHello()
    ensures Red("hello") == [ESC] + "[31mhello" + [ESC] + "[0m"
  {
    RedCode();
  }

  lemma VisibleColoredExample()
    ensures VisibleLen([ESC] + "[31mhello" + [ESC] + "[0m") == 5
  {
    var s := Red("hello");
    VisibleAddColor("hello", RED);
    RedHello();
  }

  // ---------------------------------------------------------------------------
  // str2bool

  /** `str2bool(v)`: the lower-cased text is looked up first among the true
      values, then among the false values; anything else is an
      ArgumentTypeError. The two value sets come from argser.consts. */
  function Str2Bool(v: string, trueValues: set<string>, falseValues: set<string>): (r: Result<bool>)
    ensures r == Ok(true) <==> LowerStr(v) in trueValues
    ensures r == Ok(false) <==> LowerStr(v) !in trueValues && LowerStr(v) in falseValues
    ensures r.Err? <==> LowerStr(v) !in trueValues && LowerStr(v) !in falseValues
  {
    var w := LowerStr(v);
    if w in trueValues then Ok(true)
    else if w in falseValues then Ok(false)
    else Err(ArgumentTypeError("Boolean value expected."))
  }

  /** `str2bool` ignores case: any two spellings that differ only in the case
      of ASCII letters read the same. */
  lemma Str2BoolIgnoresCase(u: string, v: string, trueValues: set<string>, falseValues: set<string>)
    requires |u| == |v| && forall i :: 0 <= i < |u| ==> Lower(u[i]) == Lower(v[i])
    ensures Str2Bool(u, trueValues, falseValues) == Str2Bool(v, trueValues, falseValues)
  {
    assert LowerStr(u) == LowerStr(v);
  }

  lemma Str2BoolUpper(v: string, trueValues: set<string>, falseValues: set<string>)
    ensures Str2Bool(UpperStr(v), trueValues, falseValues) == Str2Bool(v, trueValues, falseValues)
  {
    Str2BoolIgnoresCase(UpperStr(v), v, trueValues, falseValues);
  }
}
