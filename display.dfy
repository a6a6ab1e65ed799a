/** argser/display.py: flattening an argument object into rows, laying rows
    out in side-by-side tables, and the one-line rendering. */
module Display {
  import opened Py
  import opened Utils

  /** A value held by an argument object: a plain Python value, or a nested
      sub-command object (its class carries the sub-command mark). */
  datatype Value = Leaf(v: PyVal) | Sub(args: Args)

  /** One attribute of an argument object, as `args_to_dict` lists it. */
  datatype Item = Item(key: string, value: Value)

  /** An argument object: its class name and its attributes in order. */
  datatype Args = Args(cls: string, items: seq<Item>)

  /** A table row `(key, value)`. */
  type Row = (string, PyVal)

  /** Library text functions the display code calls but does not define:
      `str`, `repr`, `textwrap.shorten` (placeholder `...`), `textwrap.fill`
      and the `tabulate` renderer (rows, headers, table format). */
  datatype TextOps = TextOps(
    str: PyVal -> string,
    repr: PyVal -> string,
    reprStr: string -> string,
    shorten: (string, nat) -> string,
    fill: (string, nat) -> string,
    tabulate: (seq<Row>, seq<string>, Option<string>) -> string)

  // ---------------------------------------------------------------------------
  // _get_table

  /** The rows of a sub-command's table under the attribute `key`. */
  function Prefixed(key: string, rows: seq<Row>): (r: seq<Row>)
    ensures |r| == |rows|
    ensures forall i :: 0 <= i < |rows| ==> r[i] == (key + "__" + rows[i].0, rows[i].1)
  {
    seq(|rows|, i requires 0 <= i < |rows| => (key + "__" + rows[i].0, rows[i].1))
  }

  /** The rows `_get_table` produces: the attributes in order, each
      sub-command object replaced by its own rows under `key__`. */
  function Flatten(a: Args): seq<Row>
    decreases a, 1
  {
    FlattenItems(a.items)
  }

  function FlattenItems(items: seq<Item>): seq<Row>
    decreases items, 0
  {
    if items == [] then []
    else FlattenItems(items[..|items| - 1]) + FlattenItem(items[|items| - 1])
  }

  function FlattenItem(it: Item): seq<Row>
    decreases it, 0
  {
    match it.value
    case Leaf(v) => [(it.key, v)]
    case Sub(sub) => Prefixed(it.key, Flatten(sub))
  }

  /** `_get_table(args)`: a loop that appends plain attributes and extends
      with the prefixed rows of each sub-command, recursively. */
  method GetTable(a: Args) returns (data: seq<Row>)
    ensures data == Flatten(a)
    decreases a
  {
    data := [];
    for i := 0 to |a.items|
      invariant data == FlattenItems(a.items[..i])
    {
      var it := a.items[i];
      assert a.items[..i + 1][..i] == a.items[..i];
      assert it in a.items;
      match it.value {
        case Leaf(v) =>
          data := data + [(it.key, v)];
        case Sub(sub) =>
          var subData := GetTable(sub);
          data := data + Prefixed(it.key, subData);
      }
    }
    assert a.items[..|a.items|] == a.items;
  }

  /** An independent description of the rows: every leaf of the object tree
      with the path of attribute names leading to it, in left-to-right
      order. */
  function Leaves(a: Args): seq<(seq<string>, PyVal)>
    decreases a, 1
  {
    ItemLeaves(a.items)
  }

  function ItemLeaves(items: seq<Item>): seq<(seq<string>, PyVal)>
    decreases items, 0
  {
    if items == [] then [] else LeavesOf(items[0]) + ItemLeaves(items[1..])
  }

  function LeavesOf(it: Item): seq<(seq<string>, PyVal)>
    decreases it, 0
  {
    match it.value
    case Leaf(v) => [([it.key], v)]
    case Sub(sub) => Under(it.key, Leaves(sub))
  }

  function Under(key: string, leaves: seq<(seq<string>, PyVal)>): (r: seq<(seq<string>, PyVal)>)
    ensures |r| == |leaves|
    ensures forall i :: 0 <= i < |leaves| ==> r[i] == ([key] + leaves[i].0, leaves[i].1)
  {
    seq(|leaves|, i requires 0 <= i < |leaves| => ([key] + leaves[i].0, leaves[i].1))
  }

  /** How a leaf path becomes a row key: the names joined with `__`. */
  function PathRows(leaves: seq<(seq<string>, PyVal)>): (r: seq<Row>)
    ensures |r| == |leaves|
    ensures forall i :: 0 <= i < |leaves| ==> r[i] == (Join("__", leaves[i].0), leaves[i].1)
  {
    seq(|leaves|, i requires 0 <= i < |leaves| => (Join("__", leaves[i].0), leaves[i].1))
  }

  predicate PathsNonEmpty(leaves: seq<(seq<string>, PyVal)>) {
    forall i :: 0 <= i < |leaves| ==> leaves[i].0 != []
  }

  lemma UnderRows(key: string, leaves: seq<(seq<string>, PyVal)>)
    requires PathsNonEmpty(leaves)
    ensures PathRows(Under(key, leaves)) == Prefixed(key, PathRows(leaves))
    ensures PathsNonEmpty(Under(key, leaves))
  {
    forall i | 0 <= i < |leaves|
      ensures PathRows(Under(key, leaves))[i] == Prefixed(key, PathRows(leaves))[i]
    {
      JoinCons("__", key, leaves[i].0);
    }
  }

  lemma PathRowsConcat(x: seq<(seq<string>, PyVal)>, y: seq<(seq<string>, PyVal)>)
    ensures PathRows(x + y) == PathRows(x) + PathRows(y)
    ensures PathsNonEmpty(x) && PathsNonEmpty(y) ==> PathsNonEmpty(x + y)
  {
    assert forall i :: 0 <= i < |y| ==> (x + y)[|x| + i] == y[i];
  }

  lemma {:induction false} ItemLeavesSnoc(items: seq<Item>)
    requires items != []
    ensures ItemLeaves(items) == ItemLeaves(items[..|items| - 1]) + LeavesOf(items[|items| - 1])
    decreases |items|
  {
    var n := |items|;
    var init := items[..n - 1];
    var last := LeavesOf(items[n - 1]);
    var tail := items[1..];
    assert ItemLeaves(items) == LeavesOf(items[0]) + ItemLeaves(tail);
    if n > 1 {
      assert tail[..n - 2] == init[1..];
      assert tail[n - 2] == items[n - 1];
      ItemLeavesSnoc(tail);
      assert ItemLeaves(tail) == ItemLeaves(init[1..]) + last;
      assert init[0] == items[0];
      assert ItemLeaves(init) == LeavesOf(items[0]) + ItemLeaves(init[1..]);
      ConcatAssoc(LeavesOf(items[0]), ItemLeaves(init[1..]), last);
    } else {
      assert tail == [] && init == [];
      ConcatEmpty(ItemLeaves(init), last);
      ConcatEmpty(ItemLeaves(tail), last);
    }
  }

  /** `_get_table` keeps every leaf of the object tree, in order, once, and
      its key is the path of attribute names to it joined with `__`; in
      particular the number of rows is the number of leaves. */
  lemma {:induction false} FlattenLeaves(a: Args)
    ensures Flatten(a) == PathRows(Leaves(a)) && PathsNonEmpty(Leaves(a))
    decreases a, 1
  {
    FlattenItemsLeaves(a.items);
  }

  lemma {:induction false} FlattenItemsLeaves(items: seq<Item>)
    ensures FlattenItems(items) == PathRows(ItemLeaves(items)) && PathsNonEmpty(ItemLeaves(items))
    decreases items, 0
  {
    if items != [] {
      var init := items[..|items| - 1];
      var last := items[|items| - 1];
      assert last in items;
      FlattenItemsLeaves(init);
      ItemLeavesSnoc(items);
      PathRowsConcat(ItemLeaves(init), LeavesOf(last));
      match last.value {
        case Leaf(v) =>
          assert FlattenItem(last) == PathRows(LeavesOf(last));
        case Sub(sub) =>
          FlattenLeaves(sub);
          UnderRows(last.key, Leaves(sub));
      }
    }
  }

  /** An object without sub-commands is its own table. */
  lemma FlattenPlain(a: Args)
    requires forall i :: 0 <= i < |a.items| ==> a.items[i].value.Leaf?
    ensures |Flatten(a)| == |a.items|
    ensures forall i :: 0 <= i < |a.items| ==> Flatten(a)[i] == (a.items[i].key, a.items[i].value.v)
  {
    FlattenLeaves(a);
    PlainLeaves(a.items);
  }

  lemma {:induction false} PlainLeaves(items: seq<Item>)
    requires forall i :: 0 <= i < |items| ==> items[i].value.Leaf?
    ensures |ItemLeaves(items)| == |items|
    ensures forall i :: 0 <= i < |items| ==> ItemLeaves(items)[i] == ([items[i].key], items[i].value.v)
    decreases |items|
  {
    if items != [] {
      PlainLeaves(items[1..]);
      var rest := ItemLeaves(items[1..]);
      assert ItemLeaves(items) == [([items[0].key], items[0].value.v)] + rest;
      forall i | 1 <= i < |items|
        ensures ItemLeaves(items)[i] == ([items[i].key], items[i].value.v)
      {
        assert ItemLeaves(items)[i] == rest[i - 1];
        assert items[1..][i - 1] == items[i];
      }
    }
  }

  /** One sub-command level: the doctest-sized case `a=1, sub=Sub(b=None)`. */
  lemma FlattenExample()
    ensures Flatten(Args("A", [Item("a", Leaf(PyInt(1))),
                               Item("sub", Sub(Args("B", [Item("b", Leaf(PyNone))])))]))
         == [("a", PyInt(1)), ("sub__b", PyNone)]
  {
    var b := Args("B", [Item("b", Leaf(PyNone))]);
    var items := [Item("a", Leaf(PyInt(1))), Item("sub", Sub(b))];
    assert items[..1] == [items[0]];
    assert items[..1][..0] == [];
    assert b.items[..0] == [];
    assert Flatten(b) == [("b", PyNone)];
    assert FlattenItems(items[..1]) == [("a", PyInt(1))];
    var sub := Prefixed("sub", [("b", PyNone)]);
    assert "sub" + "__" + "b" == "sub__b";
    assert |sub| == 1 && sub[0] == ("sub__b", PyNone);
    assert sub == [("sub__b", PyNone)];
  }

  // ---------------------------------------------------------------------------
  // stringify

  /** The value half of one `k=v` pair: None becomes a red `-`; a plain
      value is shown by `repr`, of its `str` shortened to 20 characters when
      `shorten` is set. A sub-command object's `__str__` and `__repr__` are
      `stringify` itself (argser/parser.py:207-208), so it shows as its own
      `Name(k=v, ...)` text, unshortened inside. */
  function ValueText(v: Value, shorten: bool, ops: TextOps): string
    decreases v, 0
  {
    match v
    case Leaf(x) =>
      if x == PyNone then Red("-")
      else if shorten then ops.reprStr(ops.shorten(ops.str(x), 20))
      else ops.repr(x)
    case Sub(s) =>
      if shorten then ops.reprStr(ops.shorten(Stringify(s, false, ops), 20))
      else Stringify(s, false, ops)
  }

  function Pairs(items: seq<Item>, shorten: bool, ops: TextOps): (r: seq<string>)
    ensures |r| == |items|
    ensures forall i :: 0 <= i < |items| ==>
      r[i] == Green(items[i].key) + "=" + ValueText(items[i].value, shorten, ops)
    decreases items, 1
  {
    seq(|items|, i requires 0 <= i < |items| =>
      Green(items[i].key) + "=" + ValueText(items[i].value, shorten, ops))
  }

  /** `stringify(args, shorten)`: `Name(k=v, ...)` with a yellow class name
      and green keys. */
  function Stringify(a: Args, shorten: bool, ops: TextOps): string
    decreases a, 2
  {
    Yellow(a.cls) + "(" + Join(", ", Pairs(a.items, shorten, ops)) + ")"
  }

  /** What `stringify` shows once its colour codes are removed. */
  function PlainValue(v: Value, shorten: bool, ops: TextOps): string
    decreases v, 0
  {
    match v
    case Leaf(x) => if x == PyNone then "-" else ValueText(v, shorten, ops)
    case Sub(s) => if shorten then ValueText(v, shorten, ops) else PlainText(s, false, ops)
  }

  function PlainPairs(items: seq<Item>, shorten: bool, ops: TextOps): (r: seq<string>)
    ensures |r| == |items|
    ensures forall i :: 0 <= i < |items| ==>
      r[i] == items[i].key + "=" + PlainValue(items[i].value, shorten, ops)
    decreases items, 1
  {
    seq(|items|, i requires 0 <= i < |items| =>
      items[i].key + "=" + PlainValue(items[i].value, shorten, ops))
  }

  function PlainText(a: Args, shorten: bool, ops: TextOps): string
    decreases a, 2
  {
    a.cls + "(" + Join(", ", PlainPairs(a.items, shorten, ops)) + ")"
  }

  /** Names and texts that hold no ESC of their own: a non-empty class name,
      non-empty keys, and value texts without ESC, down through the
      sub-command objects shown in full. */
  predicate EscFree(a: Args, shorten: bool, ops: TextOps)
    decreases a, 1
  {
    a.cls != [] && NoEsc(a.cls) &&
    forall i :: 0 <= i < |a.items| ==>
      a.items[i].key != [] && NoEsc(a.items[i].key) && ValueEscFree(a.items[i].value, shorten, ops)
  }

  predicate ValueEscFree(v: Value, shorten: bool, ops: TextOps)
    decreases v, 0
  {
    match v
    case Leaf(x) => x == PyNone || NoEsc(ValueText(v, shorten, ops))
    case Sub(s) => if shorten then NoEsc(ValueText(v, shorten, ops)) else EscFree(s, false, ops)
  }

  /** A value text shows, once its codes are removed, as its plain form. */
  lemma StripValue(v: Value, shorten: bool, ops: TextOps)
    requires ValueEscFree(v, shorten, ops)
    ensures Strip(ValueText(v, shorten, ops)) == PlainValue(v, shorten, ops)
    ensures CodesClosed(ValueText(v, shorten, ops))
    decreases v, 0
  {
    match v
    case Leaf(x) =>
      if x == PyNone {
        StripAddColor("-", RED);
      } else {
        StripNoEsc(ValueText(v, shorten, ops));
      }
    case Sub(s) =>
      if shorten {
        StripNoEsc(ValueText(v, shorten, ops));
      } else {
        StripStringify(s, false, ops);
      }
  }

  lemma StripPair(key: string, v: Value, shorten: bool, ops: TextOps)
    requires key != [] && NoEsc(key) && ValueEscFree(v, shorten, ops)
    ensures var p := Green(key) + "=" + ValueText(v, shorten, ops);
      Strip(p) == key + "=" + PlainValue(v, shorten, ops) && CodesClosed(p)
    decreases v, 1
  {
    var t := ValueText(v, shorten, ops);
    StripAddColor(key, GREEN);
    StripNoEsc("=");
    StripValue(v, shorten, ops);
    StripConcat(Green(key), "=");
    StripConcat(Green(key) + "=", t);
  }

  lemma StripPairs(a: Args, shorten: bool, ops: TextOps)
    requires EscFree(a, shorten, ops)
    ensures StripAll(Pairs(a.items, shorten, ops)) == PlainPairs(a.items, shorten, ops)
    ensures AllClosed(Pairs(a.items, shorten, ops))
    decreases a, 1
  {
    var pairs := Pairs(a.items, shorten, ops);
    forall i | 0 <= i < |pairs|
      ensures Strip(pairs[i]) == PlainPairs(a.items, shorten, ops)[i] && CodesClosed(pairs[i])
    {
      StripPair(a.items[i].key, a.items[i].value, shorten, ops);
    }
  }

  lemma StripCall(cls: string, body: string)
    requires cls != [] && NoEsc(cls) && CodesClosed(body)
    ensures Strip(Yellow(cls) + "(" + body + ")") == cls + "(" + Strip(body) + ")"
    ensures CodesClosed(Yellow(cls) + "(" + body + ")")
  {
    StripAddColor(cls, YELLOW);
    StripNoEsc("(");
    StripNoEsc(")");
    StripConcat(Yellow(cls), "(");
    StripConcat(Yellow(cls) + "(", body);
    StripConcat(Yellow(cls) + "(" + body, ")");
  }

  /** The colours of `stringify` add nothing visible: with its codes removed
      the line reads `Name(k=v, ...)` with None shown as `-` and nested
      sub-command objects in the same plain form, so its visible width is
      that plain text's length. */
  lemma StripStringify(a: Args, shorten: bool, ops: TextOps)
    requires EscFree(a, shorten, ops)
    ensures Strip(Stringify(a, shorten, ops)) == PlainText(a, shorten, ops)
    ensures VisibleLen(Stringify(a, shorten, ops)) == |PlainText(a, shorten, ops)|
    ensures CodesClosed(Stringify(a, shorten, ops))
    decreases a, 2
  {
    var pairs := Pairs(a.items, shorten, ops);
    StripPairs(a, shorten, ops);
    StripNoEsc(", ");
    StripJoin(", ", pairs);
    StripCall(a.cls, Join(", ", pairs));
  }

  /** An attribute holding None, rendered inline. */
  /** An object with one attribute shows as `Name(key=value)`. */
  lemma StringifySingle(cls: string, key: string, v: Value, shorten: bool, ops: TextOps)
    ensures Stringify(Args(cls, [Item(key, v)]), shorten, ops)
         == Yellow(cls) + "(" + Green(key) + "=" + ValueText(v, shorten, ops) + ")"
  {
    var pairs := Pairs([Item(key, v)], shorten, ops);
    assert pairs == [Green(key) + "=" + ValueText(v, shorten, ops)];
  }

  lemma StringifyNone(cls: string, key: string, shorten: bool, ops: TextOps)
    ensures Stringify(Args(cls, [Item(key, Leaf(PyNone))]), shorten, ops)
         == Yellow(cls) + "(" + Green(key) + "=" + Red("-") + ")"
  {
    StringifySingle(cls, key, Leaf(PyNone), shorten, ops);
  }

  /** A sub-command attribute shows inline as its own coloured
      `Name(k=v, ...)` text. */
  lemma StringifyNested(cls: string, key: string, subCls: string, subKey: string, ops: TextOps)
    ensures Stringify(Args(cls, [Item(key, Sub(Args(subCls, [Item(subKey, Leaf(PyNone))])))]), false, ops)
         == Yellow(cls) + "(" + Green(key) + "=" + Yellow(subCls) + "(" + Green(subKey) + "=" + Red("-") + ")" + ")"
  {
    var inner := Args(subCls, [Item(subKey, Leaf(PyNone))]);
    StringifyNone(subCls, subKey, false, ops);
    StringifySingle(cls, key, Sub(inner), false, ops);
  }


  // ---------------------------------------------------------------------------
  // _get_cols_value and _split_by_cols

  /** `_get_cols_value(data, cols)` with `n = len(data)`: `'auto'` asks for
      one column per nine rows, any other text is read by `int()`, a falsy
      value means one column, anything else is used as it is. */
  function ColsValue(n: nat, cols: PyVal): (r: Result<PyVal>)
    ensures cols.PyStr? && cols != PyStr("auto") ==>
      (r.Ok? <==> ParseInt(cols.s).Ok?) && (r.Ok? ==> r.value == PyInt(ParseInt(cols.s).value))
    ensures !cols.PyStr? ==> r.Ok? && (Truthy(cols) ==> r.value == cols)
  {
    if cols == PyStr("auto") then Ok(PyInt(CeilDiv(n, 9)))
    else if cols.PyStr? then
      match ParseInt(cols.s)
      case Ok(c) => Ok(PyInt(c))
      case Err(e) => Err(e)
    else if !Truthy(cols) then Ok(PyInt(1))
    else Ok(cols)
  }

  /** `'auto'` gives the fewest columns of at most nine rows each. */
  lemma ColsAuto(n: nat)
    ensures ColsValue(n, PyStr("auto")).Ok?
    ensures var c := ColsValue(n, PyStr("auto")).value;
      c.PyInt? && 9 * c.i - 9 < n <= 9 * c.i && (c.i == 0 <==> n == 0)
  {
  }

  /** A column count written as decimal text is read back exactly. */
  lemma ColsText(n: nat, c: int)
    ensures ColsValue(n, PyStr(IntToString(c))) == Ok(PyInt(c))
  {
    var t := IntToString(c);
    assert t != "auto" by {
      assert IsDigit(t[|t| - 1]);
    }
    ParseIntToString(c);
  }

  /** Falsy column values mean a single column. */
  lemma ColsFalsy(n: nat, cols: PyVal)
    requires !cols.PyStr? && !Truthy(cols)
    ensures ColsValue(n, cols) == Ok(PyInt(1))
  {
  }

  /** `math.ceil(x)` for a real number. */
  function Ceil(x: real): (r: int)
    ensures (r - 1) as real < x <= r as real
  {
    -((-x).Floor)
  }

  /** `math.ceil(len(data) / cols)` for a resolved column value: `bool` is an
      `int` in Python, a zero divisor raises ZeroDivisionError and a value
      that is not a number raises TypeError. */
  function PartSize(n: nat, cols: PyVal): (r: Result<int>)
    ensures cols.PyInt? && cols.i > 0 ==> r.Ok? && r.value * cols.i - cols.i < n <= r.value * cols.i
    ensures (cols == PyInt(0) || cols == PyBool(false) || cols == PyFloat(0.0)) <==> r == Err(ZeroDivisionError)
  {
    match cols
    case PyInt(c) => if c == 0 then Err(ZeroDivisionError) else Ok(CeilDiv(n, c))
    case PyBool(b) => if b then Ok(n) else Err(ZeroDivisionError)
    case PyFloat(f) => if f == 0.0 then Err(ZeroDivisionError) else Ok(Ceil(n as real / f))
    case _ => Err(TypeError("unsupported operand type(s) for /"))
  }

  function Concat<T>(parts: seq<seq<T>>): seq<T> {
    if parts == [] then [] else parts[0] + Concat(parts[1..])
  }

  lemma {:induction false} ConcatAppend<T>(a: seq<seq<T>>, b: seq<seq<T>>)
    ensures Concat(a + b) == Concat(a) + Concat(b)
    decreases |a|
  {
    if a == [] {
      assert a + b == b;
    } else {
      assert (a + b)[1..] == a[1..] + b;
      ConcatAppend(a[1..], b);
      ConcatAssoc(a[0], Concat(a[1..]), Concat(b));
    }
  }

  /** What the `while data:` loop of `_split_by_cols` produces: consecutive
      slices `data[:size]`, the last one possibly shorter. */
  function Chunks<T>(data: seq<T>, size: int): seq<seq<T>>
    requires size > 0
    decreases |data|
  {
    if data == [] then []
    else if |data| <= size then [data]
    else [data[..size]] + Chunks(data[size..], size)
  }

  /** The slices put back together give the data. */
  lemma {:induction false} ChunksConcat<T>(data: seq<T>, size: int)
    requires size > 0
    ensures Concat(Chunks(data, size)) == data
    decreases |data|
  {
    var c := Chunks(data, size);
    if data == [] {
    } else if |data| <= size {
      assert Concat(c) == data + Concat([]);
    } else {
      ChunksConcat(data[size..], size);
      assert c[1..] == Chunks(data[size..], size);
      assert data[..size] + data[size..] == data;
    }
  }

  /** No slice is empty and none is longer than `size`; all but the last
      have exactly `size` rows. */
  lemma {:induction false} ChunksSizes<T>(data: seq<T>, size: int)
    requires size > 0
    ensures forall i :: 0 <= i < |Chunks(data, size)| ==> 0 < |Chunks(data, size)[i]| <= size
    ensures forall i :: 0 <= i < |Chunks(data, size)| - 1 ==> |Chunks(data, size)[i]| == size
    decreases |data|
  {
    if |data| > size {
      var c := Chunks(data, size);
      var rest := Chunks(data[size..], size);
      assert c == [data[..size]] + rest;
      ChunksSizes(data[size..], size);
      forall i | 1 <= i < |c|
        ensures c[i] == rest[i - 1]
      {
      }
    }
  }

  /** There are `ceil(len(data) / size)` slices. */
  lemma {:induction false} ChunksLength<T>(data: seq<T>, size: int)
    requires size > 0
    ensures |Chunks(data, size)| == CeilDiv(|data|, size)
    decreases |data|
  {
    if data == [] {
    } else if |data| <= size {
      assert Chunks(data, size) == [data];
      assert 1 * size - size < |data| <= 1 * size;
      CeilUnique(|data|, size, 1, CeilDiv(|data|, size));
    } else {
      var rest := Chunks(data[size..], size);
      assert Chunks(data, size) == [data[..size]] + rest;
      ChunksLength(data[size..], size);
      ChunksCount(|data|, size, |rest|);
    }
  }

  lemma ChunksCount(n: int, size: int, q: int)
    requires size > 0 && n > size && q == CeilDiv(n - size, size)
    ensures q + 1 == CeilDiv(n, size)
  {
    assert (q + 1) * size == q * size + size;
    CeilUnique(n, size, q + 1, CeilDiv(n, size));
  }

  /** Every row of every slice comes from the data. */
  lemma {:induction false} ChunksFrom<T>(data: seq<T>, size: int)
    requires size > 0
    ensures forall i :: 0 <= i < |Chunks(data, size)| ==> forall x :: x in Chunks(data, size)[i] ==> x in data
    decreases |data|
  {
    var c := Chunks(data, size);
    if |data| > size {
      var rest := Chunks(data[size..], size);
      ChunksFrom(data[size..], size);
      forall i | 0 <= i < |c|
        ensures forall x :: x in c[i] ==> x in data
      {
        if i == 0 {
          assert forall x :: x in data[..size] ==> x in data;
        } else {
          assert c[i] == rest[i - 1];
          assert forall x :: x in data[size..] ==> x in data;
        }
      }
    }
  }

  /** `_split_by_cols(data, cols)`: the resolved column count fixes the
      slice size; a non-positive size never empties non-empty data, so the
      Python loop runs forever. */
  function SplitByColsSpec<T>(data: seq<T>, cols: PyVal): Result<seq<seq<T>>> {
    match ColsValue(|data|, cols)
    case Err(e) => Err(e)
    case Ok(c) =>
      match PartSize(|data|, c)
      case Err(e) => Err(e)
      case Ok(size) =>
        if data == [] then Ok([])
        else if size <= 0 then Err(Diverges)
        else Ok(Chunks(data, size))
  }

  method SplitByCols<T>(data: seq<T>, cols: PyVal) returns (r: Result<seq<seq<T>>>)
    ensures r == SplitByColsSpec(data, cols)
  {
    var c := ColsValue(|data|, cols);
    if c.Err? {
      return Err(c.error);
    }
    var size := PartSize(|data|, c.value);
    if size.Err? {
      return Err(size.error);
    }
    if data == [] {
      return Ok([]);
    }
    if size.value <= 0 {
      return Err(Diverges);
    }
    var parts: seq<seq<T>> := [];
    var rest := data;
    while rest != []
      invariant parts + Chunks(rest, size.value) == Chunks(data, size.value)
      decreases |rest|
    {
      var part := if |rest| <= size.value then rest else rest[..size.value];
      var next := if |rest| <= size.value then [] else rest[size.value..];
      assert Chunks(rest, size.value) == [part] + Chunks(next, size.value);
      ConcatAssoc(parts, [part], Chunks(next, size.value));
      parts := parts + [part];
      rest := next;
    }
    assert parts + Chunks(rest, size.value) == parts;
    r := Ok(parts);
  }

  /** With a positive column count the split keeps every row in order, makes
      no empty part, gives every part but the last `ceil(n / cols)` rows and
      makes at most `cols` parts. */
  lemma SplitByColsPositive<T>(data: seq<T>, cols: PyVal, c: int)
    requires ColsValue(|data|, cols) == Ok(PyInt(c)) && c >= 1
    ensures SplitByColsSpec(data, cols).Ok?
    ensures var parts := SplitByColsSpec(data, cols).value;
      Concat(parts) == data &&
      (forall i :: 0 <= i < |parts| ==> parts[i] != []) &&
      (forall i :: 0 <= i < |parts| - 1 ==> |parts[i]| == CeilDiv(|data|, c)) &&
      |parts| <= c
  {
    if data != [] {
      CeilDivTwice(|data|, c);
      var size := CeilDiv(|data|, c);
      assert PartSize(|data|, PyInt(c)) == Ok(size);
      ChunksConcat(data, size);
      ChunksSizes(data, size);
      ChunksLength(data, size);
    }
  }

  /** A column value that resolves to 0 (for instance `'auto'` on no rows)
      raises ZeroDivisionError, and a negative one loops forever on rows. */
  lemma SplitByColsBad<T>(data: seq<T>, cols: PyVal, c: int)
    requires ColsValue(|data|, cols) == Ok(PyInt(c)) && c <= 0
    ensures c == 0 ==> SplitByColsSpec(data, cols) == Err(ZeroDivisionError)
    ensures c < 0 && data != [] ==> SplitByColsSpec(data, cols) == Err(Diverges)
    ensures c < 0 && data == [] ==> SplitByColsSpec(data, cols) == Ok([])
  {
    if c < 0 && data != [] {
      CeilDivNegative(|data|, c);
    }
  }

  // ---------------------------------------------------------------------------
  // _split_by_sub

  /** `key` splits as `p + '__' + rest` with `|p| == j` the way the pattern
      `^(.+)__.+` reads it: `p` is non-empty without a newline, and `rest`
      starts with a character other than a newline. */
  predicate SubSplit(key: string, j: int) {
    1 <= j && j + 2 < |key| && key[j] == '_' && key[j + 1] == '_' && key[j + 2] != '\n'
    && j <= IndexOf(key, '\n', 0)
  }

  function LastSubSplit(key: string, j: nat): (r: nat)
    ensures r <= j && (r == 0 || SubSplit(key, r))
    ensures forall k :: r < k <= j ==> !SubSplit(key, k)
  {
    if j == 0 then 0 else if SubSplit(key, j) then j else LastSubSplit(key, j - 1)
  }

  /** The sub-command group of a row key, `m and m[1]` for `m =
      re.match(r'^(.+)__.+', key)`: the greedy group is the longest prefix
      that the pattern accepts, and None when there is none. */
  function GroupOf(key: string): (g: Option<string>)
    ensures g.Some? ==> SubSplit(key, |g.value|) && g.value == key[..|g.value|]
    ensures g.Some? ==> forall k :: SubSplit(key, k) ==> k <= |g.value|
    ensures g.None? <==> forall k :: !SubSplit(key, k)
  {
    var j := LastSubSplit(key, |key|);
    if j == 0 then None else Some(key[..j])
  }

  lemma GroupOfPlain()
    ensures GroupOf("a") == None && GroupOf("__x") == None
  {
  }

  lemma GroupOfSub()
    ensures GroupOf("sub__x") == Some("sub")
  {
    var key := "sub__x";
    assert IndexOf(key, '\n', 0) == 6;
    assert SubSplit(key, 3);
    var g := GroupOf(key);
    assert |g.value| == 3;
    assert key[..3] == "sub";
  }

  /** The greedy group takes the last `__` that leaves text after it. */
  lemma GroupOfNested()
    ensures GroupOf("a__b__c") == Some("a__b")
  {
    var key := "a__b__c";
    assert IndexOf(key, '\n', 0) == 7;
    assert SubSplit(key, 4);
    var g := GroupOf(key);
    assert |g.value| == 4;
    assert key[..4] == "a__b";
  }

  /** The groups in order of first appearance. */
  function GroupOrder(data: seq<Row>): (order: seq<Option<string>>)
  {
    if data == [] then []
    else
      var o := GroupOrder(data[..|data| - 1]);
      var g := GroupOf(data[|data| - 1].0);
      if g in o then o else o + [g]
  }

  /** The rows of one group, in order. */
  function Members(data: seq<Row>, g: Option<string>): seq<Row> {
    if data == [] then []
    else
      var m := Members(data[..|data| - 1], g);
      if GroupOf(data[|data| - 1].0) == g then m + [data[|data| - 1]] else m
  }

  /** Each group's split in order, the first error stopping the work. */
  function SplitGroups(data: seq<Row>, order: seq<Option<string>>, cols: PyVal): Result<seq<seq<Row>>> {
    if order == [] then Ok([])
    else
      match SplitGroups(data, order[..|order| - 1], cols)
      case Err(e) => Err(e)
      case Ok(res) =>
        match SplitByColsSpec(Members(data, order[|order| - 1]), cols)
        case Err(e) => Err(e)
        case Ok(parts) => Ok(res + parts)
  }

  /** `_split_by_sub(data, cols)`. */
  function SplitBySubSpec(data: seq<Row>, cols: PyVal): Result<seq<seq<Row>>> {
    SplitGroups(data, GroupOrder(data), cols)
  }

  lemma {:induction false} MembersAbsent(data: seq<Row>, g: Option<string>)
    requires g !in GroupOrder(data)
    ensures Members(data, g) == []
    decreases |data|
  {
    if data != [] {
      MembersAbsent(data[..|data| - 1], g);
    }
  }

  lemma {:induction false} GroupOrderDistinct(data: seq<Row>)
    ensures forall i, j :: 0 <= i < j < |GroupOrder(data)| ==> GroupOrder(data)[i] != GroupOrder(data)[j]
    decreases |data|
  {
    if data != [] {
      GroupOrderDistinct(data[..|data| - 1]);
    }
  }

  /** The group of every row is listed. */
  lemma {:induction false} GroupOrderCovers(data: seq<Row>)
    ensures forall i :: 0 <= i < |data| ==> GroupOf(data[i].0) in GroupOrder(data)
    decreases |data|
  {
    if data != [] {
      var init := data[..|data| - 1];
      GroupOrderCovers(init);
      assert forall i :: 0 <= i < |init| ==> data[i] == init[i];
    }
  }

  /** Only groups of rows are listed. */
  lemma GroupOrderOnly(data: seq<Row>, g: Option<string>)
    requires g in GroupOrder(data)
    ensures exists x :: x in data && GroupOf(x.0) == g
  {
    MembersNonEmpty(data, g);
    MembersInGroup(data, g);
    var x := Members(data, g)[0];
    assert x in Members(data, g);
  }

  /** Groups are listed in order of first appearance: the groups seen in a
      prefix of the rows come first, in the same order. */
  lemma {:induction false} GroupOrderPrefix(data: seq<Row>, t: nat)
    requires t <= |data|
    ensures GroupOrder(data[..t]) <= GroupOrder(data)
    decreases |data| - t
  {
    if t < |data| {
      GroupOrderPrefix(data, t + 1);
      assert data[..t + 1][..t] == data[..t];
    } else {
      assert data[..t] == data;
    }
  }

  /** Every row of a group's list belongs to that group. */
  lemma {:induction false} MembersInGroup(data: seq<Row>, g: Option<string>)
    ensures forall x :: x in Members(data, g) ==> x in data && GroupOf(x.0) == g
    decreases |data|
  {
    if data != [] {
      var init := data[..|data| - 1];
      MembersInGroup(init, g);
      assert forall x :: x in init ==> x in data;
    }
  }

  lemma {:induction false} MembersNonEmpty(data: seq<Row>, g: Option<string>)
    requires g in GroupOrder(data)
    ensures Members(data, g) != []
    decreases |data|
  {
    var init := data[..|data| - 1];
    if g in GroupOrder(init) {
      MembersNonEmpty(init, g);
    }
  }

  /** `_split_by_sub(data, cols)`: rows go to their group's list in one
      pass, then each group, in order of first appearance, is split by
      `_split_by_cols`. */
  method SplitBySub(data: seq<Row>, cols: PyVal) returns (r: Result<seq<seq<Row>>>)
    ensures r == SplitBySubSpec(data, cols)
  {
    var order, store := GroupRows(data);
    var res: seq<seq<Row>> := [];
    for k := 0 to |order|
      invariant SplitGroups(data, order[..k], cols) == Ok(res)
    {
      var parts := SplitByCols(store[order[k]], cols);
      SplitGroupsStep(data, order, k, cols, res);
      if parts.Err? {
        return Err(parts.error);
      }
      res := res + parts.value;
    }
    assert order[..|order|] == order;
    r := Ok(res);
  }

  /** The first loop of `_split_by_sub`: the `defaultdict` of groups, whose
      keys keep their order of first appearance. */
  method GroupRows(data: seq<Row>) returns (order: seq<Option<string>>, store: map<Option<string>, seq<Row>>)
    ensures order == GroupOrder(data)
    ensures forall g :: g in store <==> g in order
    ensures forall g :: g in store ==> store[g] == Members(data, g)
  {
    order := [];
    store := map[];
    for i := 0 to |data|
      invariant order == GroupOrder(data[..i])
      invariant forall g :: g in store <==> g in order
      invariant forall g :: g in store ==> store[g] == Members(data[..i], g)
    {
      var g := GroupOf(data[i].0);
      assert data[..i + 1][..i] == data[..i];
      if g !in store {
        MembersAbsent(data[..i], g);
        order := order + [g];
        store := store[g := [data[i]]];
      } else {
        store := store[g := store[g] + [data[i]]];
      }
    }
    assert data[..|data|] == data;
  }

  /** One more group: its split is appended, or its error is the result. */
  lemma SplitGroupsStep(data: seq<Row>, order: seq<Option<string>>, k: nat, cols: PyVal, res: seq<seq<Row>>)
    requires k < |order| && SplitGroups(data, order[..k], cols) == Ok(res)
    ensures var parts := SplitByColsSpec(Members(data, order[k]), cols);
      (parts.Ok? ==> SplitGroups(data, order[..k + 1], cols) == Ok(res + parts.value)) &&
      (parts.Err? ==> SplitGroups(data, order, cols) == Err(parts.error))
  {
    assert order[..k + 1][..k] == order[..k];
    if SplitByColsSpec(Members(data, order[k]), cols).Err? {
      SplitGroupsErr(data, order, k + 1, cols);
    }
  }

  /** Once a group's split fails, the whole call fails with that error. */
  lemma {:induction false} SplitGroupsErr(data: seq<Row>, order: seq<Option<string>>, k: nat, cols: PyVal)
    requires k <= |order| && SplitGroups(data, order[..k], cols).Err?
    ensures SplitGroups(data, order, cols) == SplitGroups(data, order[..k], cols)
    decreases |order|
  {
    if k < |order| {
      var init := order[..|order| - 1];
      assert init[..k] == order[..k];
      SplitGroupsErr(data, init, k, cols);
    } else {
      assert order[..k] == order;
    }
  }

  /** The rows of the groups `order`, group after group. */
  function Grouped(data: seq<Row>, order: seq<Option<string>>): seq<Row> {
    if order == [] then []
    else Grouped(data, order[..|order| - 1]) + Members(data, order[|order| - 1])
  }

  lemma MembersSnoc(data: seq<Row>, x: Row, g: Option<string>)
    ensures Members(data + [x], g) == if GroupOf(x.0) == g then Members(data, g) + [x] else Members(data, g)
  {
    assert (data + [x])[..|data|] == data;
  }

  lemma {:induction false} GroupedSnocOut(data: seq<Row>, x: Row, order: seq<Option<string>>)
    requires GroupOf(x.0) !in order
    ensures Grouped(data + [x], order) == Grouped(data, order)
    decreases |order|
  {
    if order != [] {
      GroupedSnocOut(data, x, order[..|order| - 1]);
      MembersSnoc(data, x, order[|order| - 1]);
    }
  }

  lemma {:induction false} GroupedSnocIn(data: seq<Row>, x: Row, order: seq<Option<string>>)
    requires GroupOf(x.0) in order
    requires forall i, j :: 0 <= i < j < |order| ==> order[i] != order[j]
    ensures multiset(Grouped(data + [x], order)) == multiset(Grouped(data, order)) + multiset{x}
    decreases |order|
  {
    var init := order[..|order| - 1];
    var h := order[|order| - 1];
    MembersSnoc(data, x, h);
    if h == GroupOf(x.0) {
      assert GroupOf(x.0) !in init;
      GroupedSnocOut(data, x, init);
    } else {
      assert GroupOf(x.0) in init;
      GroupedSnocIn(data, x, init);
    }
  }

  /** Grouping moves rows but neither drops nor duplicates any. */
  lemma {:induction false} GroupedPermutes(data: seq<Row>)
    ensures multiset(Grouped(data, GroupOrder(data))) == multiset(data)
    decreases |data|
  {
    if data != [] {
      var init := data[..|data| - 1];
      var x := data[|data| - 1];
      var o := GroupOrder(init);
      var g := GroupOf(x.0);
      assert data == init + [x];
      GroupedPermutes(init);
      if g in o {
        GroupOrderDistinct(init);
        GroupedSnocIn(init, x, o);
      } else {
        GroupedSnocOut(init, x, o);
        MembersAbsent(init, g);
        MembersSnoc(init, x, g);
        assert GroupOrder(data) == o + [g];
        assert [] + [x] == [x];
      }
    }
  }

  /** A successful even split keeps the rows in order, and every row of a
      slice is a row of the data. */
  lemma SplitByColsRows<T>(data: seq<T>, cols: PyVal)
    requires SplitByColsSpec(data, cols).Ok?
    ensures var parts := SplitByColsSpec(data, cols).value;
      Concat(parts) == data &&
      (forall i :: 0 <= i < |parts| ==> parts[i] != [] && forall x :: x in parts[i] ==> x in data)
  {
    var c := ColsValue(|data|, cols).value;
    var size := PartSize(|data|, c).value;
    if data != [] {
      ChunksConcat(data, size);
      ChunksSizes(data, size);
      ChunksFrom(data, size);
    }
  }

  predicate OneGroup(chunk: seq<Row>) {
    forall x, y :: x in chunk && y in chunk ==> GroupOf(x.0) == GroupOf(y.0)
  }

  lemma {:induction false} SplitGroupsRows(data: seq<Row>, order: seq<Option<string>>, cols: PyVal)
    requires SplitGroups(data, order, cols).Ok?
    ensures var parts := SplitGroups(data, order, cols).value;
      Concat(parts) == Grouped(data, order) &&
      forall i :: 0 <= i < |parts| ==> parts[i] != [] && OneGroup(parts[i])
    decreases |order|
  {
    if order != [] {
      var init := order[..|order| - 1];
      var g := order[|order| - 1];
      var m := Members(data, g);
      SplitGroupsRows(data, init, cols);
      SplitByColsRows(m, cols);
      MembersInGroup(data, g);
      var res := SplitGroups(data, init, cols).value;
      var p := SplitByColsSpec(m, cols).value;
      ConcatAppend(res, p);
      forall i | |res| <= i < |res| + |p|
        ensures (res + p)[i] != [] && OneGroup((res + p)[i])
      {
        assert (res + p)[i] == p[i - |res|];
      }
    }
  }

  /** `_split_by_sub` keeps every row exactly once, makes no empty slice,
      and never puts rows of two groups in one slice. */
  lemma SplitBySubRows(data: seq<Row>, cols: PyVal)
    requires SplitBySubSpec(data, cols).Ok?
    ensures var parts := SplitBySubSpec(data, cols).value;
      multiset(Concat(parts)) == multiset(data) &&
      forall i :: 0 <= i < |parts| ==> parts[i] != [] && OneGroup(parts[i])
  {
    SplitGroupsRows(data, GroupOrder(data), cols);
    GroupedPermutes(data);
  }

  /** With `'auto'` or a positive column count every group splits. */
  lemma {:induction false} SplitGroupsOk(data: seq<Row>, order: seq<Option<string>>, cols: PyVal)
    requires cols == PyStr("auto") || (cols.PyInt? && cols.i >= 1)
    requires forall g :: g in order ==> g in GroupOrder(data)
    ensures SplitGroups(data, order, cols).Ok?
    decreases |order|
  {
    if order != [] {
      var g := order[|order| - 1];
      SplitGroupsOk(data, order[..|order| - 1], cols);
      var m := Members(data, g);
      MembersNonEmpty(data, g);
      var c := ColsValue(|m|, cols).value;
      if cols == PyStr("auto") {
        ColsAuto(|m|);
      }
      CeilDivTwice(|m|, c.i);
    }
  }

  lemma SplitBySubOk(data: seq<Row>, cols: PyVal)
    requires cols == PyStr("auto") || (cols.PyInt? && cols.i >= 1)
    ensures SplitBySubSpec(data, cols).Ok?
  {
    SplitGroupsOk(data, GroupOrder(data), cols);
  }

  // ---------------------------------------------------------------------------
  // _merge_str_cols

  /** `max(xs)` of a non-empty list. */
  function MaxOf(xs: seq<int>): (m: int)
    requires xs != []
    ensures forall i :: 0 <= i < |xs| ==> xs[i] <= m
    ensures exists i :: 0 <= i < |xs| && xs[i] == m
  {
    if |xs| == 1 then xs[0]
    else
      var init := xs[..|xs| - 1];
      var m := MaxOf(init);
      assert forall i :: 0 <= i < |init| ==> xs[i] == init[i];
      if xs[|xs| - 1] > m then xs[|xs| - 1] else m
  }

  function Sum(xs: seq<int>): int {
    if xs == [] then 0 else Sum(xs[..|xs| - 1]) + xs[|xs| - 1]
  }

  /** `[c.splitlines() for c in columns]`. */
  function Blocks(columns: seq<string>): (parts: seq<seq<string>>)
    ensures |parts| == |columns|
    ensures forall j :: 0 <= j < |columns| ==> parts[j] == SplitLines(columns[j])
  {
    seq(|columns|, j requires 0 <= j < |columns| => SplitLines(columns[j]))
  }

  predicate NoEmptyBlock(parts: seq<seq<string>>) {
    forall j :: 0 <= j < |parts| ==> parts[j] != []
  }

  function LineWidths(part: seq<string>): (r: seq<int>)
    ensures |r| == |part| && forall t :: 0 <= t < |part| ==> r[t] == VisibleLen(part[t])
  {
    seq(|part|, t requires 0 <= t < |part| => VisibleLen(part[t]))
  }

  /** `col_widths`: each block's widest visible line. */
  function Widths(parts: seq<seq<string>>): (w: seq<int>)
    requires NoEmptyBlock(parts)
    ensures |w| == |parts|
    ensures forall j :: 0 <= j < |parts| ==> w[j] == MaxOf(LineWidths(parts[j]))
  {
    seq(|parts|, j requires 0 <= j < |parts| && NoEmptyBlock(parts) => MaxOf(LineWidths(parts[j])))
  }

  function Heights(parts: seq<seq<string>>): (r: seq<int>)
    ensures |r| == |parts| && forall j :: 0 <= j < |parts| ==> r[j] == |parts[j]|
  {
    seq(|parts|, j requires 0 <= j < |parts| => |parts[j]|)
  }

  /** Line `i` of a block padded to the block's width: a missing line is
      empty, and padding counts visible characters. */
  function Cell(part: seq<string>, width: int, i: nat): string {
    var chunk := ChunkAt(part, i);
    chunk + Spaces(width - VisibleLen(chunk))
  }

  function ChunkAt(part: seq<string>, i: nat): string {
    if i < |part| then part[i] else ""
  }

  /** The padded cells of merged line `i`, one per block. */
  function Cells(parts: seq<seq<string>>, widths: seq<int>, i: nat): (r: seq<string>)
    requires |parts| == |widths|
    ensures |r| == |parts|
  {
    if parts == [] then []
    else Cells(parts[..|parts| - 1], widths[..|widths| - 1], i) + [Cell(parts[|parts| - 1], widths[|widths| - 1], i)]
  }

  lemma {:induction false} CellsAt(parts: seq<seq<string>>, widths: seq<int>, i: nat, j: nat)
    requires j < |parts| == |widths|
    ensures Cells(parts, widths, i)[j] == Cell(parts[j], widths[j], i)
  {
    var k := |parts| - 1;
    var front := Cells(parts[..k], widths[..k], i);
    assert Cells(parts, widths, i) == front + [Cell(parts[k], widths[k], i)];
    if j < k {
      CellsAt(parts[..k], widths[..k], i, j);
      assert parts[..k][j] == parts[j] && widths[..k][j] == widths[j];
    }
  }

  /** The first `j` cells of a line, each followed by the gap except the
      last cell of the line. */
  function Line(cells: seq<string>, gap: string, j: nat): string
    requires j <= |cells|
  {
    if j == 0 then ""
    else
      var sep := if j != |cells| then gap else "";
      Line(cells, gap, j - 1) + cells[j - 1] + sep
  }

  /** The merged lines `0 .. h-1`. */
  function Lines(parts: seq<seq<string>>, widths: seq<int>, gap: string, h: nat): (r: seq<string>)
    requires |parts| == |widths|
    ensures |r| == h
  {
    if h == 0 then [] else Lines(parts, widths, gap, h - 1) + [Line(Cells(parts, widths, h - 1), gap, |parts|)]
  }

  /** Merged line `i` is the line built from the cells of line `i`. */
  lemma {:induction false} LinesAt(parts: seq<seq<string>>, widths: seq<int>, gap: string, h: nat, i: nat)
    requires |parts| == |widths| && i < h
    ensures Lines(parts, widths, gap, h)[i] == Line(Cells(parts, widths, i), gap, |parts|)
  {
    if i < h - 1 {
      LinesAt(parts, widths, gap, h - 1, i);
    }
  }

  /** The lines `_merge_str_cols` joins with newlines; `max()` of an empty
      list raises ValueError, so no blocks or an empty block fail. */
  function MergeLines(columns: seq<string>, gap: string): (r: Result<seq<string>>)
    ensures r.Ok? <==> columns != [] && forall j :: 0 <= j < |columns| ==> columns[j] != []
  {
    var parts := Blocks(columns);
    if !NoEmptyBlock(parts) || parts == [] then Err(ValueError("max() arg is an empty sequence"))
    else Ok(Lines(parts, Widths(parts), gap, MaxOf(Heights(parts))))
  }

  function MergeStrColsSpec(columns: seq<string>, gap: string): Result<string> {
    match MergeLines(columns, gap)
    case Err(e) => Err(e)
    case Ok(lines) => Ok(Join("\n", lines))
  }

  /** `_merge_str_cols(columns, gap)`: for each line index, each block's
      line padded to the block's width, with the gap between blocks. */
  method MergeStrCols(columns: seq<string>, gap: string) returns (r: Result<string>)
    ensures r == MergeStrColsSpec(columns, gap)
  {
    var parts := Blocks(columns);
    if !NoEmptyBlock(parts) || parts == [] {
      return Err(ValueError("max() arg is an empty sequence"));
    }
    var widths := Widths(parts);
    var height := MaxOf(Heights(parts));
    var res: seq<string> := [];
    for i := 0 to height
      invariant res == Lines(parts, widths, gap, i)
    {
      var row := MergeRow(parts, widths, gap, i);
      res := res + [row];
    }
    r := Ok(Join("\n", res));
  }

  /** The body of the outer loop: line `i` of every block, padded to its
      block's width, with the gap between blocks. */
  method MergeRow(parts: seq<seq<string>>, widths: seq<int>, gap: string, i: nat) returns (row: string)
    requires |parts| == |widths|
    ensures row == Line(Cells(parts, widths, i), gap, |parts|)
  {
    row := "";
    for j := 0 to |parts|
      invariant row == Line(Cells(parts, widths, i), gap, j)
    {
      var chunk := ChunkAt(parts[j], i);
      var cell := chunk + Spaces(widths[j] - VisibleLen(chunk));
      LineStep(parts, widths, gap, i, j, cell);
      row := row + cell;
      if j != |parts| - 1 {
        row := row + gap;
      }
    }
  }

  /** One pass of the inner loop appends the next padded cell and, unless
      it is the last block, the gap. */
  lemma LineStep(parts: seq<seq<string>>, widths: seq<int>, gap: string, i: nat, j: nat, cell: string)
    requires j < |parts| == |widths| && cell == Cell(parts[j], widths[j], i)
    ensures j != |parts| - 1 ==> Line(Cells(parts, widths, i), gap, j + 1) == Line(Cells(parts, widths, i), gap, j) + cell + gap
    ensures j == |parts| - 1 ==> Line(Cells(parts, widths, i), gap, j + 1) == Line(Cells(parts, widths, i), gap, j) + cell
  {
    CellsAt(parts, widths, i, j);
    LineSnoc(Cells(parts, widths, i), gap, j, cell);
  }

  lemma LineSnoc(cells: seq<string>, gap: string, j: nat, cell: string)
    requires j < |cells| && cells[j] == cell
    ensures Line(cells, gap, j + 1) == Line(cells, gap, j) + cell + (if j + 1 != |cells| then gap else "")
    ensures j + 1 == |cells| ==> Line(cells, gap, j + 1) == Line(cells, gap, j) + cell
  {
    ConcatEmpty("", Line(cells, gap, j) + cell);
  }

  /** As many lines as the tallest block, and at least as many as every
      block. */
  lemma MergeLinesCount(columns: seq<string>, gap: string)
    requires MergeLines(columns, gap).Ok?
    ensures forall j :: 0 <= j < |columns| ==> |SplitLines(columns[j])| <= |MergeLines(columns, gap).value|
    ensures exists j :: 0 <= j < |columns| && |SplitLines(columns[j])| == |MergeLines(columns, gap).value|
  {
    var h := Heights(Blocks(columns));
    assert forall j :: 0 <= j < |columns| ==> h[j] == |SplitLines(columns[j])|;
  }

  /** Every line of every block has its colour codes closed. */
  predicate BlocksClosed(parts: seq<seq<string>>) {
    forall j, t :: 0 <= j < |parts| && 0 <= t < |parts[j]| ==> CodesClosed(parts[j][t])
  }

  /** Every line fits its block's width. */
  predicate BlocksFit(parts: seq<seq<string>>, widths: seq<int>)
    requires |parts| == |widths|
  {
    (forall j :: 0 <= j < |widths| ==> widths[j] >= 0) &&
    forall j, t :: 0 <= j < |parts| && 0 <= t < |parts[j]| ==> VisibleLen(parts[j][t]) <= widths[j]
  }

  /** Every cell is closed and exactly as wide as its block. */
  predicate CellsFit(cells: seq<string>, widths: seq<int>)
    requires |cells| == |widths|
  {
    forall j :: 0 <= j < |cells| ==> CodesClosed(cells[j]) && VisibleLen(cells[j]) == widths[j]
  }

  /** Padding a line that fits makes it exactly as wide as its block. */
  lemma CellWidth(part: seq<string>, width: int, i: nat)
    requires forall t :: 0 <= t < |part| ==> CodesClosed(part[t]) && VisibleLen(part[t]) <= width
    requires width >= 0
    ensures VisibleLen(Cell(part, width, i)) == width && CodesClosed(Cell(part, width, i))
  {
    var chunk := ChunkAt(part, i);
    var pad := Spaces(width - VisibleLen(chunk));
    StripNoEsc(pad);
    if i >= |part| {
      StripNoEsc(chunk);
    }
    StripConcat(chunk, pad);
  }

  lemma CellsOf(parts: seq<seq<string>>, widths: seq<int>, i: nat)
    requires |parts| == |widths| && BlocksClosed(parts) && BlocksFit(parts, widths)
    ensures CellsFit(Cells(parts, widths, i), widths)
  {
    var cells := Cells(parts, widths, i);
    forall j | 0 <= j < |cells|
      ensures CodesClosed(cells[j]) && VisibleLen(cells[j]) == widths[j]
    {
      CellsAt(parts, widths, i, j);
      CellWidth(parts[j], widths[j], i);
    }
  }

  /** Gluing three closed pieces adds their visible widths. */
  lemma Glue3(a: string, b: string, c: string)
    requires CodesClosed(a) && CodesClosed(b) && CodesClosed(c)
    ensures CodesClosed(a + b + c)
    ensures VisibleLen(a + b + c) == VisibleLen(a) + VisibleLen(b) + VisibleLen(c)
  {
    StripConcat(a, b);
    StripConcat(a + b, c);
  }

  lemma SepClosed(gap: string, last: bool)
    requires CodesClosed(gap)
    ensures CodesClosed(if last then "" else gap)
    ensures VisibleLen(if last then "" else gap) == if last then 0 else VisibleLen(gap)
  {
    StripNoEsc("");
  }

  lemma SumSnoc(xs: seq<int>, j: nat)
    requires 0 < j <= |xs|
    ensures Sum(xs[..j]) == Sum(xs[..j - 1]) + xs[j - 1]
  {
    assert xs[..j][..j - 1] == xs[..j - 1];
  }

  /** `n * g`, by repeated addition. */
  function Times(n: nat, g: int): int {
    if n == 0 then 0 else Times(n - 1, g) + g
  }

  lemma {:induction false} TimesMul(n: nat, g: int)
    ensures Times(n, g) == n * g
  {
    if n > 0 {
      TimesMul(n - 1, g);
      assert n * g == (n - 1) * g + g;
    }
  }

  /** Every block starts at the same visible column on every line: after
      `j` cells a line is `sum(widths[:j])` wide plus one gap per cell,
      except that no gap follows the last cell. */
  lemma {:induction false} RowOffset(cells: seq<string>, widths: seq<int>, gap: string, j: nat)
    requires j <= |cells| == |widths| && CodesClosed(gap) && CellsFit(cells, widths)
    ensures CodesClosed(Line(cells, gap, j))
    ensures VisibleLen(Line(cells, gap, j)) + (if j == |cells| > 0 then VisibleLen(gap) else 0)
         == Sum(widths[..j]) + Times(j, VisibleLen(gap))
    decreases j
  {
    if j == 0 {
      StripNoEsc("");
    } else {
      RowOffset(cells, widths, gap, j - 1);
      SepClosed(gap, j == |cells|);
      Glue3(Line(cells, gap, j - 1), cells[j - 1], if j == |cells| then "" else gap);
      SumSnoc(widths, j);
    }
  }

  /** A whole merged line is `sum(widths) + (k - 1) * vlen(gap)` wide
      (`Times` is multiplication, by `TimesMul`). */
  lemma RowWidth(cells: seq<string>, widths: seq<int>, gap: string)
    requires 0 < |cells| == |widths| && CodesClosed(gap) && CellsFit(cells, widths)
    ensures VisibleLen(Line(cells, gap, |cells|)) == Sum(widths) + Times(|cells| - 1, VisibleLen(gap))
  {
    var k := |cells|;
    RowOffset(cells, widths, gap, k);
    assert widths[..k] == widths;
  }

  lemma WidthsFit(parts: seq<seq<string>>)
    requires NoEmptyBlock(parts)
    ensures BlocksFit(parts, Widths(parts))
  {
    var widths := Widths(parts);
    forall j, t | 0 <= j < |parts| && 0 <= t < |parts[j]|
      ensures VisibleLen(parts[j][t]) <= widths[j]
    {
      assert LineWidths(parts[j])[t] == VisibleLen(parts[j][t]);
    }
    forall j | 0 <= j < |widths|
      ensures widths[j] >= 0
    {
      assert LineWidths(parts[j])[0] >= 0;
    }
  }

  /** Every merged line has the visible width `sum(col_widths) + (k - 1) *
      vlen(gap)` for `k` blocks, provided no colour code is cut off inside a
      line or the gap. */
  lemma MergeLinesWidth(columns: seq<string>, gap: string, i: nat)
    requires MergeLines(columns, gap).Ok? && i < |MergeLines(columns, gap).value|
    requires CodesClosed(gap) && BlocksClosed(Blocks(columns))
    ensures VisibleLen(MergeLines(columns, gap).value[i])
         == Sum(Widths(Blocks(columns))) + Times(|columns| - 1, VisibleLen(gap))
  {
    var parts := Blocks(columns);
    var widths := Widths(parts);
    LinesAt(parts, widths, gap, MaxOf(Heights(parts)), i);
    WidthsFit(parts);
    CellsOf(parts, widths, i);
    RowWidth(Cells(parts, widths, i), widths, gap);
  }

  /** Line `i` of the merge is the cells of line `i`, one per block, with
      the gap between blocks and none after the last. */
  lemma MergeLinesShape(columns: seq<string>, gap: string, i: nat)
    requires MergeLines(columns, gap).Ok? && i < |MergeLines(columns, gap).value|
    ensures var parts := Blocks(columns);
      MergeLines(columns, gap).value[i] == Line(Cells(parts, Widths(parts), i), gap, |columns|)
  {
    var parts := Blocks(columns);
    LinesAt(parts, Widths(parts), gap, MaxOf(Heights(parts)), i);
  }

  /** The cell of block `j` on line `i`: the block's line `i` (empty past
      its end) right-padded with spaces to the block's width, which
      `Widths` makes its widest visible line. */
  lemma MergeCell(parts: seq<seq<string>>, i: nat, j: nat)
    requires NoEmptyBlock(parts) && j < |parts|
    ensures var w := Widths(parts)[j];
      Cells(parts, Widths(parts), i)[j] == ChunkAt(parts[j], i) + Spaces(w - VisibleLen(ChunkAt(parts[j], i)))
  {
    var widths := Widths(parts);
    CellsAt(parts, widths, i, j);
    CellUnfold(parts[j], widths[j], i);
  }

  lemma CellUnfold(part: seq<string>, width: int, i: nat)
    ensures Cell(part, width, i) == ChunkAt(part, i) + Spaces(width - VisibleLen(ChunkAt(part, i)))
  {
  }

  /** Merging the blocks `ab`/`c` and `d` with the gap ` | `: `c` is padded
      to the width of `ab`, and the missing second line of `d` becomes one
      space. */
  lemma MergeExample()
    ensures MergeLines(["ab\nc", "d"], " | ") == Ok(["ab | d", "c  |  "])
  {
    ExampleBlocks();
    ExampleWidths();
    ExampleLines();
  }

  lemma ExampleLines()
    ensures Lines([["ab", "c"], ["d"]], [2, 1], " | ", 2) == ["ab | d", "c  |  "]
  {
    ExampleCells();
    assert Line(["ab", "d"], " | ", 2) == "ab | d";
    assert Line(["c ", " "], " | ", 2) == "c  |  ";
  }

  lemma ExampleBlocks()
    ensures Blocks(["ab\nc", "d"]) == [["ab", "c"], ["d"]]
  {
    var s := "ab\nc";
    assert FirstBreak(s, 2) == 2;
    assert FirstBreak(s, 0) == 2;
    assert s[..2] == "ab" && s[3..] == "c";
    assert FirstBreak("c", 0) == 1;
    assert SplitLines("c") == ["c"];
    assert SplitLines(s) == ["ab", "c"];
    assert FirstBreak("d", 0) == 1;
    assert SplitLines("d") == ["d"];
  }

  lemma ExampleWidths()
    ensures NoEmptyBlock([["ab", "c"], ["d"]])
    ensures Widths([["ab", "c"], ["d"]]) == [2, 1] && Heights([["ab", "c"], ["d"]]) == [2, 1]
  {
    VisibleLenNoEsc("ab");
    VisibleLenNoEsc("c");
    VisibleLenNoEsc("d");
    assert LineWidths(["ab", "c"]) == [2, 1];
    assert LineWidths(["d"]) == [1];
  }

  lemma ExampleCells()
    ensures Cells([["ab", "c"], ["d"]], [2, 1], 0) == ["ab", "d"]
    ensures Cells([["ab", "c"], ["d"]], [2, 1], 1) == ["c ", " "]
  {
    ExampleRow(0);
    ExampleRow(1);
  }

  lemma ExampleRow(i: nat)
    requires i < 2
    ensures Cells([["ab", "c"], ["d"]], [2, 1], i) == (if i == 0 then ["ab", "d"] else ["c ", " "])
  {
    var parts := [["ab", "c"], ["d"]];
    CellsAt(parts, [2, 1], i, 0);
    CellsAt(parts, [2, 1], i, 1);
    ExampleCell(["ab", "c"], 2, i);
    ExampleCell(["d"], 1, i);
  }

  lemma ExampleCell(part: seq<string>, width: int, i: nat)
    requires (part == ["ab", "c"] && width == 2) || (part == ["d"] && width == 1)
    requires i < 2
    ensures Cell(part, width, i) == (if part == ["d"] then ["d", " "][i] else ["ab", "c "][i])
  {
    CellUnfold(part, width, i);
    var chunk := ChunkAt(part, i);
    assert chunk == (if part == ["d"] then ["d", ""][i] else ["ab", "c"][i]);
    VisibleLenNoEsc(chunk);
    assert Spaces(0) == "" && Spaces(1) == " ";
  }

  // ---------------------------------------------------------------------------
  // _colorize and make_table

  /** The keyword arguments `make_table` passes on to `tabulate`: the
      header pair (absent until defaulted) and the table format. */
  class Kwargs {
    var headers: Option<seq<string>>
    var tablefmt: Option<string>

    constructor (headers: Option<seq<string>>, tablefmt: Option<string>)
      ensures this.headers == headers && this.tablefmt == tablefmt
    {
      this.headers := headers;
      this.tablefmt := tablefmt;
    }
  }

  /** One row as `_colorize` rewrites it: a green key, and the value as
      text, None as a red `-`. */
  function ColorRow(row: Row, ops: TextOps): (r: Row)
    ensures r.1.PyStr?
  {
    (Green(row.0), PyStr(if row.1 == PyNone then Red("-") else ops.str(row.1)))
  }

  function ColorRows(rows: seq<Row>, ops: TextOps): (r: seq<Row>)
    ensures |r| == |rows|
    ensures forall i :: 0 <= i < |rows| ==> r[i] == ColorRow(rows[i], ops)
  {
    seq(|rows|, i requires 0 <= i < |rows| => ColorRow(rows[i], ops))
  }

  /** Unpacking `kwargs['headers']` into two names: a missing key raises
      KeyError and any other count ValueError. */
  function HeaderPair(headers: Option<seq<string>>): (r: Result<seq<string>>)
    ensures r.Ok? <==> headers.Some? && |headers.value| == 2
    ensures r.Ok? ==> r.value == [Yellow(headers.value[0]), Yellow(headers.value[1])]
  {
    match headers
    case None => Err(KeyError("headers"))
    case Some(hs) =>
      if |hs| != 2 then Err(ValueError("wrong number of values to unpack"))
      else Ok([Yellow(hs[0]), Yellow(hs[1])])
  }

  /** `_colorize(data, kwargs)`: colours the two headers, then rewrites
      every row in place. Unpacking the headers comes first, so on failure
      nothing is changed. */
  method Colorize(data: array<Row>, kw: Kwargs, ops: TextOps) returns (r: Result<()>)
    modifies data, kw
    ensures r.Ok? <==> HeaderPair(old(kw.headers)).Ok?
    ensures r.Err? ==> r.error == HeaderPair(old(kw.headers)).error && unchanged(data) && unchanged(kw)
    ensures r.Ok? ==> kw.headers == Some(HeaderPair(old(kw.headers)).value) && kw.tablefmt == old(kw.tablefmt)
    ensures r.Ok? ==> data[..] == ColorRows(old(data[..]), ops)
  {
    var pair := HeaderPair(kw.headers);
    if pair.Err? {
      return Err(pair.error);
    }
    kw.headers := Some(pair.value);
    for i := 0 to data.Length
      invariant data[..i] == ColorRows(old(data[..i]), ops)
      invariant data[i..] == old(data[i..])
      invariant kw.headers == Some(pair.value) && kw.tablefmt == old(kw.tablefmt)
    {
      assert data[i] == data[i..][0] == old(data[i]);
      ghost var rest := data[i + 1..];
      assert rest == data[i..][1..];
      var (key, value) := data[i];
      var text := if value == PyNone then Red("-") else ops.str(value);
      data[i] := (Green(key), PyStr(text));
      assert data[..i + 1] == data[..i] + [data[i]];
      assert old(data[..i + 1]) == old(data[..i]) + [old(data[i])];
      assert data[i + 1..] == rest;
    }
    assert data[..] == data[..data.Length];
    assert old(data[..]) == old(data[..data.Length]);
    r := Ok(());
  }

  /** A coloured key shows exactly the key, and a None value shows `-`. */
  lemma ColorRowVisible(row: Row, ops: TextOps)
    requires NoEsc(row.0) && row.0 != []
    ensures Strip(ColorRow(row, ops).0) == row.0
    ensures row.1 == PyNone ==> Strip(ColorRow(row, ops).1.s) == "-"
  {
    StripAddColor(row.0, GREEN);
    StripAddColor("-", RED);
  }

  /** The value text after the wrapping loop of `make_table`: shortened to
      40 characters, or shortened to 400 and filled to lines of 40. */
  function WrapText(text: string, shorten: bool, ops: TextOps): string {
    if shorten then ops.shorten(text, 40) else ops.fill(ops.shorten(text, 400), 40)
  }

  function WrapRows(rows: seq<Row>, shorten: bool, ops: TextOps): (r: seq<Row>)
    requires forall i :: 0 <= i < |rows| ==> rows[i].1.PyStr?
    ensures |r| == |rows|
    ensures forall i :: 0 <= i < |rows| ==> r[i] == (rows[i].0, PyStr(WrapText(rows[i].1.s, shorten, ops)))
  {
    seq(|rows|, i requires 0 <= i < |rows| && rows[i].1.PyStr? => (rows[i].0, PyStr(WrapText(rows[i].1.s, shorten, ops))))
  }

  /** The wrapping loop of `make_table`, in place on the coloured rows. */
  method WrapValues(data: array<Row>, shorten: bool, ops: TextOps)
    requires forall i :: 0 <= i < data.Length ==> data[i].1.PyStr?
    modifies data
    ensures data[..] == WrapRows(old(data[..]), shorten, ops)
  {
    for i := 0 to data.Length
      invariant data[..i] == WrapRows(old(data[..i]), shorten, ops)
      invariant data[i..] == old(data[i..])
    {
      assert data[i] == data[i..][0] == old(data[i]);
      ghost var rest := data[i + 1..];
      assert rest == data[i..][1..];
      var (key, value) := data[i];
      var text := WrapText(value.s, shorten, ops);
      data[i] := (key, PyStr(text));
      assert data[..i + 1] == data[..i] + [data[i]];
      assert old(data[..i + 1]) == old(data[..i]) + [old(data[i])];
      assert data[i + 1..] == rest;
    }
    assert data[..] == data[..data.Length];
    assert old(data[..]) == old(data[..data.Length]);
  }

  /** A string `cols` starting with `sub` asks for the split by sub-command. */
  predicate SubPath(cols: PyVal) {
    cols.PyStr? && "sub" <= cols.s
  }

  /** The column count of the sub-command path: the text after `sub-`, or 1
      when `sub-(.+)` does not match. */
  function SubCount(cols: string): (c: PyVal)
    ensures c == PyInt(1) || (c.PyStr? && c.s != [] && "sub-" + c.s <= cols)
  {
    match MatchPrefixRest(cols, "sub-")
    case Some(rest) => PyStr(rest)
    case None => PyInt(1)
  }

  lemma ConcatNonEmpty<T>(parts: seq<seq<T>>)
    requires Concat(parts) != []
    ensures parts != []
  {
  }

  /** `[tabulate(sub, **kwargs) for sub in parts]`. */
  function Tabulated(parts: seq<seq<Row>>, heads: seq<string>, fmt: Option<string>, ops: TextOps): (r: seq<string>)
    ensures |r| == |parts|
    ensures forall i :: 0 <= i < |parts| ==> r[i] == ops.tabulate(parts[i], heads, fmt)
  {
    seq(|parts|, i requires 0 <= i < |parts| => ops.tabulate(parts[i], heads, fmt))
  }

  /** The layout settings after the preset: `'fancy'` forces `sub-auto`,
      the gap ` ~ ` and the `fancy_grid` format. */
  datatype Layout = Layout(cols: PyVal, gap: string, tablefmt: Option<string>)

  function ApplyPreset(preset: Option<string>, cols: PyVal, gap: string, tablefmt: Option<string>): (l: Layout)
    ensures preset == Some("fancy") ==> l == Layout(PyStr("sub-auto"), " ~ ", Some("fancy_grid"))
    ensures preset != Some("fancy") ==> l == Layout(cols, gap, tablefmt)
  {
    if preset == Some("fancy") then Layout(PyStr("sub-auto"), " ~ ", Some("fancy_grid"))
    else Layout(cols, gap, tablefmt)
  }

  /** The slices `make_table` renders, by the sub-command split or the even
      split. */
  function TableParts(rows: seq<Row>, cols: PyVal): Result<seq<seq<Row>>> {
    if SubPath(cols) then SplitBySubSpec(rows, SubCount(cols.s)) else SplitByColsSpec(rows, cols)
  }

  /** What `make_table` returns: headers defaulted to `arg`/`value` and
      coloured, rows flattened, coloured and wrapped, split, each slice
      tabulated, and the tables merged side by side. */
  function MakeTableSpec(a: Args, preset: Option<string>, cols: PyVal, gap: string, shorten: bool,
                         headers: Option<seq<string>>, tablefmt: Option<string>, ops: TextOps): Result<string>
  {
    var hs := if headers.None? then ["arg", "value"] else headers.value;
    match HeaderPair(Some(hs))
    case Err(e) => Err(e)
    case Ok(heads) =>
      var rows := WrapRows(ColorRows(Flatten(a), ops), shorten, ops);
      RenderSpec(rows, ApplyPreset(preset, cols, gap, tablefmt), heads, ops)
  }

  /** Splitting the rows, tabulating each slice and merging the tables. */
  function RenderSpec(rows: seq<Row>, l: Layout, heads: seq<string>, ops: TextOps): Result<string> {
    match TableParts(rows, l.cols)
    case Err(e) => Err(e)
    case Ok(parts) => MergeStrColsSpec(Tabulated(parts, heads, l.tablefmt, ops), l.gap)
  }

  /** The last lines of `make_table`: choose the split, tabulate each slice
      and merge the tables side by side. */
  method Render(rows: seq<Row>, l: Layout, heads: seq<string>, ops: TextOps) returns (r: Result<string>)
    ensures r == RenderSpec(rows, l, heads, ops)
  {
    var parts;
    if l.cols.PyStr? && "sub" <= l.cols.s {
      parts := SplitBySub(rows, SubCount(l.cols.s));
    } else {
      parts := SplitByCols(rows, l.cols);
    }
    if parts.Err? {
      return Err(parts.error);
    }
    var tables := Tabulated(parts.value, heads, l.tablefmt, ops);
    r := MergeStrCols(tables, l.gap);
  }

  /** The first part of `make_table`: default the headers, flatten the
      object into rows and colour and wrap them in place. */
  method PrepareRows(a: Args, shorten: bool, kw: Kwargs, ops: TextOps) returns (r: Result<seq<Row>>)
    modifies kw
    ensures var hs := if old(kw.headers).None? then ["arg", "value"] else old(kw.headers).value;
      kw.tablefmt == old(kw.tablefmt) &&
      match HeaderPair(Some(hs))
      case Err(e) => r == Err(e)
      case Ok(heads) => r == Ok(WrapRows(ColorRows(Flatten(a), ops), shorten, ops)) && kw.headers == Some(heads)
  {
    if kw.headers.None? {
      kw.headers := Some(["arg", "value"]);
    }
    var rows := GetTable(a);
    var data := new Row[|rows|](i requires 0 <= i < |rows| => rows[i]);
    assert data[..] == rows;
    var ok := Colorize(data, kw, ops);
    if ok.Err? {
      return Err(ok.error);
    }
    WrapValues(data, shorten, ops);
    r := Ok(data[..]);
  }

  /** `make_table(args, preset, cols, gap, shorten, **kwargs)`. */
  method MakeTable(a: Args, preset: Option<string>, cols: PyVal, gap: string, shorten: bool,
                   kw: Kwargs, ops: TextOps) returns (r: Result<string>)
    modifies kw
    ensures r == MakeTableSpec(a, preset, cols, gap, shorten, old(kw.headers), old(kw.tablefmt), ops)
  {
    var rows := PrepareRows(a, shorten, kw, ops);
    if rows.Err? {
      return Err(rows.error);
    }
    var c, g := cols, gap;
    if preset == Some("fancy") {
      c := PyStr("sub-auto");
      g := " ~ ";
      kw.tablefmt := Some("fancy_grid");
    }
    r := Render(rows.value, Layout(c, g, kw.tablefmt), kw.headers.value, ops);
  }

  /** The `'fancy'` preset overrides whatever columns, gap and table format
      were asked for. */
  lemma MakeTableFancy(a: Args, cols: PyVal, gap: string, shorten: bool,
                       headers: Option<seq<string>>, tablefmt: Option<string>, ops: TextOps)
    ensures MakeTableSpec(a, Some("fancy"), cols, gap, shorten, headers, tablefmt, ops)
         == MakeTableSpec(a, None, PyStr("sub-auto"), " ~ ", shorten, headers, Some("fancy_grid"), ops)
  {
  }

  /** Headers that are not a pair fail before any row is looked at. */
  lemma MakeTableHeaders(a: Args, preset: Option<string>, cols: PyVal, gap: string, shorten: bool,
                         headers: Option<seq<string>>, tablefmt: Option<string>, ops: TextOps)
    requires headers.Some? && |headers.value| != 2
    ensures MakeTableSpec(a, preset, cols, gap, shorten, headers, tablefmt, ops).Err?
  {
  }

  /** An object with no attributes has no table: `max()` of no blocks
      raises, or the column count `'auto'` of no rows divides by zero. */
  lemma MakeTableEmpty(a: Args, preset: Option<string>, cols: PyVal, gap: string, shorten: bool,
                       headers: Option<seq<string>>, tablefmt: Option<string>, ops: TextOps)
    requires Flatten(a) == []
    ensures MakeTableSpec(a, preset, cols, gap, shorten, headers, tablefmt, ops).Err?
  {
    var rows := WrapRows(ColorRows(Flatten(a), ops), shorten, ops);
    assert rows == [];
    var hs := if headers.None? then ["arg", "value"] else headers.value;
    if HeaderPair(Some(hs)).Ok? {
      RenderEmpty(ApplyPreset(preset, cols, gap, tablefmt), HeaderPair(Some(hs)).value, ops);
    }
  }

  /** No rows give no slices, and no slices give no table. */
  lemma RenderEmpty(l: Layout, heads: seq<string>, ops: TextOps)
    ensures RenderSpec([], l, heads, ops).Err?
  {
    var empty: seq<Row> := [];
    if SubPath(l.cols) {
      assert GroupOrder(empty) == [];
      assert SplitBySubSpec(empty, SubCount(l.cols.s)) == Ok([]);
    }
    if TableParts(empty, l.cols).Ok? {
      assert TableParts(empty, l.cols).value == [];
      assert Tabulated([], heads, l.tablefmt, ops) == [];
    }
  }

  /** With the default `sub-auto` columns (or the `'fancy'` preset), a pair
      of headers and a renderer that never yields empty text, every object
      with at least one attribute gets a table. */
  lemma MakeTableOk(a: Args, preset: Option<string>, gap: string, shorten: bool,
                    headers: Option<seq<string>>, tablefmt: Option<string>, ops: TextOps)
    requires headers.None? || |headers.value| == 2
    requires Flatten(a) != []
    requires forall rs, hs, f :: ops.tabulate(rs, hs, f) != []
    ensures MakeTableSpec(a, preset, PyStr("sub-auto"), gap, shorten, headers, tablefmt, ops).Ok?
  {
    var hs := if headers.None? then ["arg", "value"] else headers.value;
    var heads := HeaderPair(Some(hs)).value;
    var rows := WrapRows(ColorRows(Flatten(a), ops), shorten, ops);
    RenderOk(rows, ApplyPreset(preset, PyStr("sub-auto"), gap, tablefmt), heads, ops);
  }

  /** `sub-auto` splits by sub-command with the count `'auto'`. */
  lemma SubAuto()
    ensures SubPath(PyStr("sub-auto")) && SubCount("sub-auto") == PyStr("auto")
  {
    assert "sub-auto"[4..] == "auto";
    assert IndexOf("auto", '\n', 0) == 4;
  }

  lemma RenderOk(rows: seq<Row>, l: Layout, heads: seq<string>, ops: TextOps)
    requires l.cols == PyStr("sub-auto") && rows != []
    requires forall rs, hs, f :: ops.tabulate(rs, hs, f) != []
    ensures RenderSpec(rows, l, heads, ops).Ok?
  {
    SubAuto();
    SplitBySubOk(rows, PyStr("auto"));
    SplitBySubRows(rows, PyStr("auto"));
    var parts := SplitBySubSpec(rows, PyStr("auto")).value;
    assert |Concat(parts)| == |rows| by {
      assert |multiset(Concat(parts))| == |multiset(rows)|;
    }
    ConcatNonEmpty(parts);
    var tables := Tabulated(parts, heads, l.tablefmt, ops);
    assert MergeLines(tables, l.gap).Ok?;
  }
}
