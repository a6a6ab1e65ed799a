/** The Python built-ins that argser's core relies on, written out: values and
    types, truthiness, `int(str)`, `str(int)`, `str.splitlines`, `str.split`,
    `str.join`, `str.lower`/`str.upper` (ASCII letters), `math.ceil(n / d)` and
    the regular-expression shape `re.match(prefix + '(.+)', s)`. */
module Py {

  datatype Option<T> = None | Some(value: T)

  /** The exceptions the core can raise. `Diverges` stands for an input on
      which the Python code loops forever. */
  datatype Error =
    | ValueError(msg: string)
    | TypeError(msg: string)
    | KeyError(key: string)
    | ZeroDivisionError
    | ArgumentTypeError(msg: string)
    | Diverges

  datatype Result<T> = Ok(value: T) | Err(error: Error)

  /** The Python types the core tells apart. `ListOf(Some(t))` is `typing.List[t]`,
      `ListOf(None)` a bare `typing.List`; `Str2BoolT` is the `str2bool` converter
      used as an argparse `type`. */
  datatype Ty =
    | StrT | IntT | FloatT | BoolT | ListT | NoneT | TypeT | Str2BoolT
    | ListOf(arg: Option<Ty>)
    | ClassT(name: string)

  /** Python values as far as the core inspects them. */
  datatype PyVal =
    | PyNone
    | PyBool(b: bool)
    | PyInt(i: int)
    | PyFloat(f: real)
    | PyStr(s: string)
    | PyList(items: seq<PyVal>)
    | PyTuple(items: seq<PyVal>)
    | PyType(t: Ty)
    | PyObj(cls: string)

  /** Python's `bool(v)`. */
  predicate Truthy(v: PyVal) {
    match v
    case PyNone => false
    case PyBool(b) => b
    case PyInt(i) => i != 0
    case PyFloat(f) => f != 0.0
    case PyStr(s) => s != []
    case PyList(xs) => xs != []
    case PyTuple(xs) => xs != []
    case PyType(_) => true
    case PyObj(_) => true
  }

  /** Python's `type(v)`. */
  function TypeOf(v: PyVal): Ty {
    match v
    case PyNone => NoneT
    case PyBool(_) => BoolT
    case PyInt(_) => IntT
    case PyFloat(_) => FloatT
    case PyStr(_) => StrT
    case PyList(_) => ListT
    case PyTuple(_) => ClassT("tuple")
    case PyType(_) => TypeT
    case PyObj(c) => ClassT(c)
  }

  // ---------------------------------------------------------------------------
  // Integers

  /** `math.ceil(n / d)`, computed exactly on integers. */
  function CeilDiv(n: int, d: int): (r: int)
    requires d != 0
    ensures d > 0 ==> r * d - d < n <= r * d
    ensures d < 0 ==> r * d <= n < r * d - d
  {
    if d > 0 then
      var q := (n + d - 1) / d;
      assert n + d - 1 == q * d + (n + d - 1) % d;
      q
    else
      var e := -d;
      var q := (-n + e - 1) / e;
      assert -n + e - 1 == q * e + (-n + e - 1) % e;
      assert q * d == -(q * e);
      q
  }

  lemma {:induction false} MulNat(x: nat, d: nat)
    ensures x * d >= 0
    decreases x
  {
    if x > 0 {
      MulNat(x - 1, d);
      assert x * d == (x - 1) * d + d;
    }
  }

  /** Multiplying by a positive number keeps the sign. */
  lemma MulSign(x: int, d: int)
    requires d > 0
    ensures x >= 0 ==> x * d >= 0
    ensures x < 0 ==> x * d < 0
  {
    if x >= 0 {
      MulNat(x, d);
    } else {
      MulNat(-x - 1, d);
      assert x * d == -((-x - 1) * d) - d;
    }
  }

  /** Dividing `a*d - d < b*d` by `d > 0`. */
  lemma MulCancel(a: int, b: int, d: int)
    requires d > 0 && a * d - d < b * d
    ensures a <= b
  {
    assert (a - b - 1) * d == a * d - d - b * d;
    MulSign(a - b - 1, d);
  }

  /** The ceiling bounds `a*d - d < n <= a*d` fix `a`. */
  lemma CeilUnique(n: int, d: int, a: int, b: int)
    requires d > 0 && a * d - d < n <= a * d && b * d - d < n <= b * d
    ensures a == b
  {
    MulCancel(a, b, d);
    MulCancel(b, a, d);
  }

  lemma CountBound(n: int, c: int, s: int, q: int)
    requires n > 0 && c >= 1
    requires s * c - c < n <= s * c && q * s - s < n <= q * s
    ensures s > 0 && q <= c
  {
    MulCancel(1, s, c);
    assert c * s == s * c;
    MulCancel(q, c, s);
  }

  /** Cutting `n > 0` items into slices of `ceil(n / c)` makes at most `c`
      slices. */
  lemma CeilDivTwice(n: int, c: int)
    requires n > 0 && c >= 1
    ensures CeilDiv(n, c) > 0 && CeilDiv(n, CeilDiv(n, c)) <= c
  {
    var s := CeilDiv(n, c);
    MulCancel(1, s, c);
    CountBound(n, c, s, CeilDiv(n, s));
  }

  lemma NegBound(n: int, c: int, s: int)
    requires n > 0 && c < 0 && s * c <= n < s * c - c
    ensures s <= 0
  {
    assert s * (-c) == -(s * c);
    MulCancel(s, 0, -c);
  }

  /** A negative divisor of a positive number has a non-positive ceiling. */
  lemma CeilDivNegative(n: int, c: int)
    requires n > 0 && c < 0
    ensures CeilDiv(n, c) <= 0
  {
    NegBound(n, c, CeilDiv(n, c));
  }

  predicate IsDigit(c: char) { '0' <= c <= '9' }

  function DigitChar(d: nat): char
    requires d < 10
  {
    ('0' as int + d) as char
  }

  function DigitValue(c: char): nat
    requires IsDigit(c)
  {
    c as int - '0' as int
  }

  /** Python's `str(n)` for a natural number. */
  function NatToString(n: nat): (s: string)
    ensures s != [] && forall i :: 0 <= i < |s| ==> IsDigit(s[i])
  {
    if n < 10 then [DigitChar(n)] else NatToString(n / 10) + [DigitChar(n % 10)]
  }

  /** Python's `str(i)`. */
  function IntToString(i: int): (s: string)
    ensures s != [] && IsDigit(s[|s| - 1])
  {
    if i < 0 then "-" + NatToString(-i) else NatToString(i)
  }

  predicate IsSpace(c: char) {
    c == ' ' || c == '\t' || c == '\n' || c == '\r' || c == '\U{B}' || c == '\U{C}'
  }

  function TrimLeft(s: string): (r: string)
    ensures |r| <= |s| && r == s[|s| - |r|..]
    ensures r != [] ==> !IsSpace(r[0])
  {
    if s != [] && IsSpace(s[0]) then TrimLeft(s[1..]) else s
  }

  function TrimRight(s: string): (r: string)
    ensures |r| <= |s| && r == s[..|r|]
    ensures r != [] ==> !IsSpace(r[|r| - 1])
  {
    if s != [] && IsSpace(s[|s| - 1]) then TrimRight(s[..|s| - 1]) else s
  }

  /** The digit part of a Python integer literal: digits, single underscores
      allowed between them. */
  predicate DigitGroups(s: string) {
    && s != []
    && IsDigit(s[0]) && IsDigit(s[|s| - 1])
    && (forall i :: 0 <= i < |s| ==> IsDigit(s[i]) || s[i] == '_')
    && (forall i :: 0 <= i < |s| - 1 ==> !(s[i] == '_' && s[i + 1] == '_'))
  }

  function DigitsValue(s: string): nat
    requires forall i :: 0 <= i < |s| ==> IsDigit(s[i]) || s[i] == '_'
  {
    if s == [] then 0
    else if s[|s| - 1] == '_' then DigitsValue(s[..|s| - 1])
    else DigitsValue(s[..|s| - 1]) * 10 + DigitValue(s[|s| - 1])
  }

  /** Python's `int(s)` on a string: surrounding white space, an optional sign,
      then digit groups; anything else raises ValueError. */
  function ParseInt(s: string): (r: Result<int>)
    ensures r.Ok? ==> TrimRight(TrimLeft(s)) != []
  {
    var t := TrimRight(TrimLeft(s));
    if t == [] then Err(ValueError("invalid literal for int()"))
    else
      var neg := t[0] == '-';
      var body := if t[0] == '-' || t[0] == '+' then t[1..] else t;
      var v: int := if DigitGroups(body) then DigitsValue(body) else 0;
      if DigitGroups(body) then Ok(if neg then -v else v)
      else Err(ValueError("invalid literal for int()"))
  }

  lemma {:induction false} NatToStringValue(n: nat)
    ensures DigitsValue(NatToString(n)) == n
  {
    var s := NatToString(n);
    if n >= 10 {
      NatToStringValue(n / 10);
      assert s[..|s| - 1] == NatToString(n / 10);
    }
  }

  lemma TrimNoSpace(s: string)
    requires forall i :: 0 <= i < |s| ==> !IsSpace(s[i])
    ensures TrimRight(TrimLeft(s)) == s
  {
  }

  lemma DigitsAreGroups(t: string)
    requires t != [] && forall k :: 0 <= k < |t| ==> IsDigit(t[k])
    ensures DigitGroups(t)
  {
  }

  lemma ParseDigits(t: string, n: nat)
    requires t == NatToString(n)
    ensures ParseInt(t) == Ok(n)
  {
    NatToStringValue(n);
    assert forall k :: 0 <= k < |t| ==> !IsSpace(t[k]);
    TrimNoSpace(t);
    DigitsAreGroups(t);
    assert t[0] != '-' && t[0] != '+';
  }

  lemma ParseNegative(t: string, n: nat)
    requires t == "-" + NatToString(n)
    ensures ParseInt(t) == Ok(-(n as int))
  {
    var d := NatToString(n);
    NatToStringValue(n);
    assert forall k :: 0 <= k < |t| ==> !IsSpace(t[k]);
    TrimNoSpace(t);
    assert t[0] == '-' && t[1..] == d;
    DigitsAreGroups(d);
  }

  /** `int(str(i)) == i`. */
  lemma ParseIntToString(i: int)
    ensures ParseInt(IntToString(i)) == Ok(i)
  {
    if i < 0 {
      ParseNegative(IntToString(i), -i);
    } else {
      ParseDigits(IntToString(i), i);
    }
  }

  // ---------------------------------------------------------------------------
  // Strings

  /** Concatenation is associative; stated apart so that proofs about
      scanners need not prove it by extensionality in a crowded context. */
  lemma ConcatAssoc<T>(p: seq<T>, q: seq<T>, r: seq<T>)
    ensures p + (q + r) == (p + q) + r
  {
  }

  lemma ConcatEmpty<T>(p: seq<T>, q: seq<T>)
    requires p == []
    ensures p + q == q && q + p == q
  {
  }

  function Lower(c: char): char {
    if 'A' <= c <= 'Z' then (c as int + 32) as char else c
  }

  function Upper(c: char): char {
    if 'a' <= c <= 'z' then (c as int - 32) as char else c
  }

  /** `s.lower()` on ASCII letters. */
  function LowerStr(s: string): (r: string)
    ensures |r| == |s| && forall i :: 0 <= i < |s| ==> r[i] == Lower(s[i])
  {
    seq(|s|, i requires 0 <= i < |s| => Lower(s[i]))
  }

  /** `s.upper()` on ASCII letters. */
  function UpperStr(s: string): (r: string)
    ensures |r| == |s| && forall i :: 0 <= i < |s| ==> r[i] == Upper(s[i])
  {
    seq(|s|, i requires 0 <= i < |s| => Upper(s[i]))
  }

  /** `' ' * n`: empty when n is not positive. */
  function Spaces(n: int): (r: string)
    ensures |r| == if n <= 0 then 0 else n
    ensures forall i :: 0 <= i < |r| ==> r[i] == ' '
  {
    if n <= 0 then "" else Spaces(n - 1) + " "
  }

  /** `sep.join(parts)`. */
  function Join(sep: string, parts: seq<string>): string {
    if parts == [] then ""
    else if |parts| == 1 then parts[0]
    else Join(sep, parts[..|parts| - 1]) + sep + parts[|parts| - 1]
  }

  /** Joining a non-empty list after a first part puts one separator between
      them. */
  lemma {:induction false} JoinCons(sep: string, x: string, p: seq<string>)
    requires p != []
    ensures Join(sep, [x] + p) == x + sep + Join(sep, p)
    decreases |p|
  {
    var q := [x] + p;
    if |p| > 1 {
      var init := p[..|p| - 1];
      assert q[..|q| - 1] == [x] + init;
      JoinCons(sep, x, init);
      ConcatAssoc(x, sep, Join(sep, init));
      assert Join(sep, q) == (x + sep + Join(sep, init)) + sep + p[|p| - 1];
      assert Join(sep, p) == Join(sep, init) + sep + p[|p| - 1];
    } else {
      assert q[..|q| - 1] == [x];
    }
  }

  /** Index of the first occurrence of `c` in `s` at or after `from`, or `|s|`. */
  function IndexOf(s: string, c: char, from: nat): (i: nat)
    requires from <= |s|
    ensures from <= i <= |s|
    ensures i < |s| ==> s[i] == c
    ensures forall k :: from <= k < i ==> s[k] != c
    decreases |s| - from
  {
    if from == |s| || s[from] == c then from else IndexOf(s, c, from + 1)
  }

  /** `s.split(sep)` for a one-character separator. */
  function Split(s: string, sep: char): (parts: seq<string>)
    ensures |parts| >= 1
    decreases |s|
  {
    var i := IndexOf(s, sep, 0);
    if i == |s| then [s] else [s[..i]] + Split(s[i + 1..], sep)
  }

  /** The line boundaries of `str.splitlines`. */
  predicate IsLineBreak(c: char) {
    c == '\n' || c == '\r' || c == '\U{B}' || c == '\U{C}' || c == '\U{1C}' || c == '\U{1D}'
    || c == '\U{1E}' || c == '\U{85}' || c == '\U{2028}' || c == '\U{2029}'
  }

  function FirstBreak(s: string, from: nat): (i: nat)
    requires from <= |s|
    ensures from <= i <= |s|
    ensures i < |s| ==> IsLineBreak(s[i])
    ensures forall k :: from <= k < i ==> !IsLineBreak(s[k])
    decreases |s| - from
  {
    if from == |s| || IsLineBreak(s[from]) then from else FirstBreak(s, from + 1)
  }

  /** `s.splitlines()`: "\r\n" counts as one boundary, and a trailing boundary
      does not open an empty last line. */
  function SplitLines(s: string): (lines: seq<string>)
    ensures lines == [] <==> s == []
    ensures forall k :: 0 <= k < |lines| ==> |lines[k]| <= |s|
    decreases |s|
  {
    if s == [] then []
    else
      var i := FirstBreak(s, 0);
      if i == |s| then [s]
      else
        var next := if s[i] == '\r' && i + 1 < |s| && s[i + 1] == '\n' then i + 2 else i + 1;
        [s[..i]] + SplitLines(s[next..])
  }

  /** `re.match(prefix + '(.+)', s)[1]`, or None when there is no match: the
      text after a literal prefix, up to the first newline (`.` does not match
      one), and at least one character long. */
  function MatchPrefixRest(s: string, prefix: string): (r: Option<string>)
    ensures r.Some? ==> prefix <= s && r.value != [] && r.value <= s[|prefix|..]
    ensures r.Some? ==> forall k :: 0 <= k < |r.value| ==> r.value[k] != '\n'
    ensures r.Some? && |prefix| + |r.value| < |s| ==> s[|prefix| + |r.value|] == '\n'
    ensures r.None? ==> !(prefix <= s) || |s| == |prefix| || s[|prefix|] == '\n'
  {
    if prefix <= s then
      var rest := s[|prefix|..];
      var n := IndexOf(rest, '\n', 0);
      if n == 0 then None else Some(rest[..n])
    else None
  }
}
