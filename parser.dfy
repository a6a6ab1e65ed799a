/** The naming and collecting helpers of argser's parser (`argser/parser.py`):
    one-letter shortcuts for options, routing of prefixed keyword arguments,
    the `nargs` mode of a type, and the merging of class members and
    annotations along the base classes. */
module Parser {
  import opened Py
  import opened Fields

  // ---------------------------------------------------------------------------
  // _make_shortcut

  /** The first characters of the non-empty parts, in order. */
  function Initials(parts: seq<string>): (r: string)
    ensures |r| <= |parts|
    decreases |parts|
  {
    if parts == [] then ""
    else (if parts[0] != "" then [parts[0][0]] else "") + Initials(parts[1..])
  }

  /** `_make_shortcut(name)`: `''.join(p[0] for p in name.split('_') if p)`. */
  function MakeShortcut(name: string): string {
    Initials(Split(name, '_'))
  }

  lemma {:induction false} InitialsConcat(p: seq<string>, q: seq<string>)
    ensures Initials(p + q) == Initials(p) + Initials(q)
    decreases |p|
  {
    if p != [] {
      assert (p + q)[1..] == p[1..] + q;
      InitialsConcat(p[1..], q);
    } else {
      assert p + q == q;
    }
  }

  /** A name without underscores splits into itself. */
  lemma SplitWord(w: string)
    requires '_' !in w
    ensures Split(w, '_') == [w]
  {
    IndexOfNone(w, '_', 0);
  }

  lemma {:induction false} IndexOfNone(s: string, c: char, from: nat)
    requires from <= |s| && c !in s[from..]
    ensures IndexOf(s, c, from) == |s|
    decreases |s| - from
  {
    if from < |s| {
      assert s[from] == s[from..][0];
      assert s[from + 1..] == s[from..][1..];
      IndexOfNone(s, c, from + 1);
    }
  }

  /** Splitting at an underscore splits the two sides apart. */
  lemma {:induction false} SplitAtUnderscore(a: string, b: string)
    ensures Split(a + "_" + b, '_') == Split(a, '_') + Split(b, '_')
    decreases |a|
  {
    var i := IndexOf(a, '_', 0);
    if i < |a| {
      SplitAtUnderscore(a[i + 1..], b);
      SplitAtLater(a, b, i);
    } else {
      SplitAtFirst(a, b);
    }
  }

  /** `a` has no underscore: the separator added is the first one. */
  lemma SplitAtFirst(a: string, b: string)
    requires IndexOf(a, '_', 0) == |a|
    ensures Split(a + "_" + b, '_') == Split(a, '_') + Split(b, '_')
  {
    var s := a + "_" + b;
    FirstUnderscore(a, b, |a|);
    assert s[..|a|] == a && s[|a| + 1..] == b;
  }

  /** `a` has an underscore at `i`: its first part comes off, the rest as
      for `a[i + 1..]`. */
  lemma SplitAtLater(a: string, b: string, i: nat)
    requires i == IndexOf(a, '_', 0) < |a|
    requires Split(a[i + 1..] + "_" + b, '_') == Split(a[i + 1..], '_') + Split(b, '_')
    ensures Split(a + "_" + b, '_') == Split(a, '_') + Split(b, '_')
  {
    var s := a + "_" + b;
    FirstUnderscore(a, b, i);
    SplitUnfold(s, i);
    SplitUnfold(a, i);
    SliceJoin(a, "_", b, i);
    ConcatAssoc([a[..i]], Split(a[i + 1..], '_'), Split(b, '_'));
  }

  lemma SplitUnfold(s: string, i: nat)
    requires i == IndexOf(s, '_', 0) < |s|
    ensures Split(s, '_') == [s[..i]] + Split(s[i + 1..], '_')
  {
  }

  /** The first underscore of `a_b` is the first one of `a`, or the one
      joining the two. */
  lemma FirstUnderscore(a: string, b: string, i: nat)
    requires i == IndexOf(a, '_', 0)
    ensures IndexOf(a + "_" + b, '_', 0) == i
  {
    var s := a + "_" + b;
    assert forall k :: 0 <= k < i ==> s[k] == a[k];
    assert s[i] == '_';
    IndexOfFirst(s, '_', i);
  }

  /** Around a position `i` inside `a`, slicing `a + m + b` slices `a`. */
  lemma SliceJoin<T>(a: seq<T>, m: seq<T>, b: seq<T>, i: nat)
    requires i < |a|
    ensures (a + m + b)[..i] == a[..i]
    ensures (a + m + b)[i + 1..] == a[i + 1..] + m + b
  {
  }

  /** The first occurrence: the index of a `c` with none before it. */
  lemma IndexOfFirst(s: string, c: char, i: nat)
    requires i < |s| && s[i] == c && forall k :: 0 <= k < i ==> s[k] != c
    ensures IndexOf(s, c, 0) == i
  {
    IndexOfFrom(s, c, 0, i);
  }

  lemma {:induction false} IndexOfFrom(s: string, c: char, from: nat, i: nat)
    requires from <= i < |s| && s[i] == c && forall k :: from <= k < i ==> s[k] != c
    ensures IndexOf(s, c, from) == i
    decreases i - from
  {
    if from < i {
      IndexOfFrom(s, c, from + 1, i);
    }
  }

  /** A word without underscores gives its first letter, the empty name nothing. */
  lemma ShortcutWord(w: string)
    requires '_' !in w
    ensures MakeShortcut(w) == if w == "" then "" else [w[0]]
  {
    SplitWord(w);
    assert [w][1..] == [];
  }

  /** The shortcut of `a_b` is the shortcut of `a` followed by that of `b`. */
  lemma ShortcutJoin(a: string, b: string)
    ensures MakeShortcut(a + "_" + b) == MakeShortcut(a) + MakeShortcut(b)
  {
    SplitAtUnderscore(a, b);
    InitialsConcat(Split(a, '_'), Split(b, '_'));
  }

  /** The documented examples: `aaa` gives `a`, `aaa_bbb` gives `ab`. */
  lemma ShortcutExamples()
    ensures MakeShortcut("aaa") == "a"
    ensures MakeShortcut("aaa_bbb") == "ab"
  {
    ShortcutWord("aaa");
    ShortcutWord("bbb");
    ShortcutJoin("aaa", "bbb");
    assert "aaa" + "_" + "bbb" == "aaa_bbb";
  }

  // ---------------------------------------------------------------------------
  // _make_shortcuts

  /** What `_make_shortcuts` reads of one argument: `dest` and the aliases. */
  type Item = (string, seq<string>)

  /** The undashed names of one argument. */
  function ItemNames(it: Item): seq<string> {
    [it.0] + it.1
  }

  /** The table `used` after its first loop: every name of every argument. */
  function NamesOf(items: seq<Item>): (r: set<string>)
    ensures forall i, n :: 0 <= i < |items| && n in ItemNames(items[i]) ==> n in r
    ensures forall n :: n in r ==> exists i :: 0 <= i < |items| && n in ItemNames(items[i])
    decreases |items|
  {
    if items == [] then {}
    else
      var init := items[..|items| - 1];
      var names := ItemNames(items[|items| - 1]);
      var r := NamesOf(init) + set n | n in names;
      assert forall i :: 0 <= i < |init| ==> items[i] == init[i];
      r
  }

  /** The second loop of `_make_shortcuts` over `items`, starting from the
      table `used`: the aliases each argument ends with, and the table
      after. An argument without aliases gets its shortcut unless the
      shortcut is already in the table, and the shortcut then joins it. */
  function Assign(items: seq<Item>, used: set<string>): (r: (seq<seq<string>>, set<string>))
    ensures |r.0| == |items|
    ensures used <= r.1
    decreases |items|
  {
    if items == [] then ([], used)
    else
      var prev := Assign(items[..|items| - 1], used);
      var last := items[|items| - 1];
      var a := MakeShortcut(last.0);
      if last.1 != [] || a in prev.1 then (prev.0 + [last.1], prev.1)
      else (prev.0 + [[a]], prev.1 + {a})
  }

  /** The aliases `_make_shortcuts` leaves the arguments with. */
  function Shortcuts(items: seq<Item>): (r: seq<seq<string>>)
    ensures |r| == |items|
  {
    Assign(items, NamesOf(items)).0
  }

  /** Whether argument `j` was given a shortcut. */
  predicate Assigned(items: seq<Item>, used: set<string>, j: nat)
    requires j < |items|
  {
    items[j].1 == [] && MakeShortcut(items[j].0) !in Assign(items[..j], used).1
  }

  lemma AssignPrefix(items: seq<Item>, used: set<string>, j: nat)
    requires j < |items|
    ensures Assign(items[..j + 1], used).0[..j] == Assign(items[..j], used).0
    ensures Assign(items[..j + 1], used).0[j] ==
      (if Assigned(items, used, j) then [MakeShortcut(items[j].0)] else items[j].1)
    ensures Assign(items[..j + 1], used).1 ==
      Assign(items[..j], used).1 + (if Assigned(items, used, j) then {MakeShortcut(items[j].0)} else {})
  {
    assert items[..j + 1][..j] == items[..j];
  }

  /** Each argument's outcome is decided when the loop reaches it: later
      arguments do not change it. */
  lemma {:induction false} AssignStable(items: seq<Item>, used: set<string>, j: nat, n: nat)
    requires j < n <= |items|
    ensures Assign(items[..n], used).0[j] == Assign(items[..j + 1], used).0[j]
    decreases n
  {
    if n > j + 1 {
      AssignStable(items, used, j, n - 1);
      assert items[..n][..n - 1] == items[..n - 1];
    }
  }

  /** The table after the loop: the names it started with and the shortcuts
      handed out. */
  lemma {:induction false} AssignUsed(items: seq<Item>, used: set<string>, n: nat, s: string)
    requires n <= |items|
    ensures s in Assign(items[..n], used).1 <==>
      s in used || exists j :: 0 <= j < n && Assigned(items, used, j) && MakeShortcut(items[j].0) == s
    decreases n
  {
    if n > 0 {
      AssignUsed(items, used, n - 1, s);
      AssignPrefix(items, used, n - 1);
      assert items[..n - 1 + 1] == items[..n];
    }
  }

  /** What `_make_shortcuts` does to argument `j`: an argument with aliases
      keeps them; one without gets `(shortcut,)` exactly when the shortcut
      is neither a name of any argument nor given to an earlier argument,
      and keeps its empty aliases otherwise. */
  lemma ShortcutOutcome(items: seq<Item>, j: nat)
    requires j < |items|
    ensures items[j].1 != [] ==> Shortcuts(items)[j] == items[j].1
    ensures var a := MakeShortcut(items[j].0);
      Shortcuts(items)[j] == [a] && items[j].1 == [] <==>
        items[j].1 == [] && a !in NamesOf(items) &&
        forall k :: 0 <= k < j && items[k].1 == [] ==> Shortcuts(items)[k] != [a]
    ensures Shortcuts(items)[j] == items[j].1 || Shortcuts(items)[j] == [MakeShortcut(items[j].0)]
  {
    var used := NamesOf(items);
    var a := MakeShortcut(items[j].0);
    assert items[..|items|] == items;
    AssignStable(items, used, j, |items|);
    AssignPrefix(items, used, j);
    forall k | 0 <= k < j
      ensures Shortcuts(items)[k] == (if Assigned(items, used, k) then [MakeShortcut(items[k].0)] else items[k].1)
    {
      AssignStable(items, used, k, |items|);
      AssignPrefix(items, used, k);
    }
    AssignUsed(items, used, j, a);
    if items[j].1 == [] && a in used {
      assert a in NamesOf(items);
      assert Shortcuts(items)[j] == [];
    }
  }

  /** No two arguments receive the same shortcut, and none receives a name
      some argument already has. */
  lemma ShortcutsDistinct(items: seq<Item>, j: nat, k: nat)
    requires j < k < |items|
    requires Shortcuts(items)[j] != items[j].1 && Shortcuts(items)[k] != items[k].1
    ensures Shortcuts(items)[j] != Shortcuts(items)[k]
    ensures Shortcuts(items)[k] == [MakeShortcut(items[k].0)] && MakeShortcut(items[k].0) !in NamesOf(items)
  {
    ShortcutOutcome(items, j);
    ShortcutOutcome(items, k);
  }

  /** The arguments as `_make_shortcuts` reads them. */
  function Items(args: seq<Arg>): (r: seq<Item>)
    reads set a | a in args
    ensures |r| == |args| && forall i :: 0 <= i < |args| ==> r[i] == (args[i].dest, args[i].aliases)
  {
    seq(|args|, i reads set a | a in args requires 0 <= i < |args| => (args[i].dest, args[i].aliases))
  }

  lemma AssignStep(items: seq<Item>, used0: set<string>, i: nat, used: set<string>, after: set<string>, x: seq<string>)
    requires i < |items| && used == Assign(items[..i], used0).1
    requires var a := MakeShortcut(items[i].0);
      if items[i].1 == [] && a !in used then x == [a] && after == used + {a}
      else x == items[i].1 && after == used
    ensures after == Assign(items[..i + 1], used0).1
    ensures Assign(items[..i + 1], used0).0 == Assign(items[..i], used0).0 + [x]
  {
    AssignPrefix(items, used0, i);
    var r := Assign(items[..i + 1], used0).0;
    assert r == r[..i] + [r[i]];
  }

  /** One turn of the second loop of `_make_shortcuts`. */
  method Visit(arg: Arg, used: set<string>) returns (after: set<string>)
    modifies arg`aliases
    ensures var a := MakeShortcut(arg.dest);
      if old(arg.aliases) == [] && a !in used then arg.aliases == [a] && after == used + {a}
      else arg.aliases == old(arg.aliases) && after == used
  {
    after := used;
    if arg.aliases != [] {
      return;
    }
    var a := MakeShortcut(arg.dest);
    if a in used {
      return;
    }
    after := used + {a};
    arg.aliases := [a];
  }

  lemma Snoc<T>(s: seq<T>, pre: seq<T>, i: nat)
    requires i < |s| && s[..i] == pre
    ensures s[..i + 1] == pre + [s[i]]
  {
    assert s[..i + 1] == s[..i] + [s[i]];
  }

  lemma UpdatePrefix<T>(s: seq<T>, i: nat, x: T)
    requires i < |s|
    ensures s[i := x][..i] == s[..i]
  {
  }

  /** The first loop of `_make_shortcuts`: every name of every argument. */
  method CollectNames(args: seq<Arg>) returns (used: set<string>)
    ensures used == NamesOf(Items(args))
  {
    ghost var items := Items(args);
    used := {};
    for i := 0 to |args|
      invariant used == NamesOf(items[..i])
    {
      assert items[..i + 1][..i] == items[..i];
      var names := [args[i].dest] + args[i].aliases;
      for k := 0 to |names|
        invariant used == NamesOf(items[..i]) + set n | n in names[..k]
      {
        assert names[..k + 1] == names[..k] + [names[k]];
        used := used + {names[k]};
      }
      assert names[..|names|] == names;
    }
    assert items[..|args|] == items;
  }

  /** What the second loop of `_make_shortcuts` keeps after `i` turns: the
      table and the aliases so far are those `Assign` gives for the first
      `i` items, the later arguments still hold theirs. */
  ghost predicate Progress(args: seq<Arg>, i: nat, used: set<string>, items: seq<Item>, used0: set<string>, cur: seq<seq<string>>)
    reads set a | a in args
  {
    i <= |args| && |items| == |args| && |cur| == |args| &&
    used == Assign(items[..i], used0).1 &&
    cur[..i] == Assign(items[..i], used0).0 &&
    (forall j :: i <= j < |args| ==> cur[j] == items[j].1) &&
    (forall j :: 0 <= j < |args| ==> args[j].aliases == cur[j] && args[j].dest == items[j].0)
  }

  /** One turn of the second loop. */
  method Turn(args: seq<Arg>, i: nat, used: set<string>, ghost items: seq<Item>, ghost used0: set<string>, ghost cur: seq<seq<string>>)
      returns (after: set<string>, ghost cur': seq<seq<string>>)
    requires forall m, n :: 0 <= m < n < |args| ==> args[m] != args[n]
    requires i < |args| && Progress(args, i, used, items, used0, cur)
    modifies {args[i]}`aliases
    ensures Progress(args, i + 1, after, items, used0, cur')
  {
    ghost var pre := cur[..i];
    after := Visit(args[i], used);
    AssignStep(items, used0, i, used, after, args[i].aliases);
    UpdatePrefix(cur, i, args[i].aliases);
    cur' := cur[i := args[i].aliases];
    Snoc(cur', pre, i);
  }

  /** `_make_shortcuts(args)`: fill the table with every name, then give each
      argument without aliases its shortcut when the table lacks it. Only
      the aliases of the arguments change. */
  method MakeShortcuts(args: seq<Arg>)
    requires forall i, j :: 0 <= i < j < |args| ==> args[i] != args[j]
    modifies (set a | a in args)`aliases
    ensures forall i :: 0 <= i < |args| ==> args[i].aliases == Shortcuts(old(Items(args)))[i]
  {
    ghost var items := Items(args);
    var used := CollectNames(args);
    ghost var used0 := used;
    ghost var cur := seq(|args|, j requires 0 <= j < |args| => items[j].1);
    for i := 0 to |args|
      invariant Progress(args, i, used, items, used0, cur)
    {
      used, cur := Turn(args, i, used, items, used0, cur);
    }
    assert items[..|args|] == items;
    assert cur[..|args|] == cur;
  }

  // ---------------------------------------------------------------------------
  // _make_shortcuts_sub_wise

  /** One level of sub-commands: its arguments and the levels below it, in
      the order of the `sub_commands` dictionary. */
  datatype Level = Level(args: seq<Arg>, subs: seq<Level>)

  /** The arguments at a level and below it. */
  function Objs(t: Level): (r: set<Arg>)
    ensures forall i :: 0 <= i < |t.args| ==> t.args[i] in r
    ensures forall k :: 0 <= k < |t.subs| ==> Objs(t.subs[k]) <= r
  {
    (set a | a in t.args) + (set k, a | 0 <= k < |t.subs| && a in Objs(t.subs[k]) :: a)
  }

  /** No argument object sits twice in a level, nor in two levels. */
  predicate Separate(t: Level) {
    (forall i, j :: 0 <= i < j < |t.args| ==> t.args[i] != t.args[j]) &&
    (forall k :: 0 <= k < |t.subs| ==> Separate(t.subs[k]) && (set a | a in t.args) !! Objs(t.subs[k])) &&
    (forall m, k :: 0 <= m < k < |t.subs| ==> Objs(t.subs[m]) !! Objs(t.subs[k]))
  }

  /** The argument lists of a level and of every level below it. */
  function Levels(t: Level): (r: set<seq<Arg>>)
    ensures t.args in r
    ensures forall k :: 0 <= k < |t.subs| ==> Levels(t.subs[k]) <= r
    ensures forall l, i :: l in r && 0 <= i < |l| ==> l[i] in Objs(t)
  {
    {t.args} + (set k, l | 0 <= k < |t.subs| && l in Levels(t.subs[k]) :: l)
  }

  /** A list of a level is its own or one of a level below it. */
  lemma LevelsCases(t: Level)
    ensures forall l :: l in Levels(t) ==> l == t.args || exists k :: 0 <= k < |t.subs| && l in Levels(t.subs[k])
  {
  }

  /** The arguments of `l` hold the aliases `_make_shortcuts` plans for the
      names and aliases they had in the earlier state. */
  twostate predicate Planned(l: seq<Arg>)
    reads set a | a in l
  {
    forall i :: 0 <= i < |l| ==> l[i].aliases == Shortcuts(old(Items(l)))[i]
  }

  /** `_make_shortcuts_sub_wise(args, sub_commands)`: shortcuts for this
      level, then for each sub-command level in turn, each level planned
      from its own names alone. Only aliases change. */
  method MakeShortcutsSubWise(t: Level)
    requires Separate(t)
    requires forall a :: a in Objs(t) ==> allocated(a)
    modifies Objs(t)`aliases
    ensures forall l :: l in Levels(t) ==> Planned(l)
    decreases t, 1
  {
    PlanHere(t);
    for k := 0 to |t.subs|
      invariant Planned(t.args)
      invariant forall m :: 0 <= m < k ==> forall l :: l in Levels(t.subs[m]) ==> Planned(l)
      invariant forall m :: k <= m < |t.subs| ==> unchanged(Objs(t.subs[m]))
    {
      label Before:
      PlanLevel(t, k);
      forall l | l in Levels(t.subs[k])
        ensures Planned(l)
      {
        assert old@Before(Items(l)) == old(Items(l));
      }
    }
    LevelsCases(t);
  }

  /** The step for the level's own arguments: it changes no argument of a
      level below. */
  method PlanHere(t: Level)
    requires Separate(t)
    requires forall m, a :: 0 <= m < |t.subs| && a in Objs(t.subs[m]) ==> allocated(a)
    modifies (set a | a in t.args)`aliases
    ensures Planned(t.args)
    ensures forall m :: 0 <= m < |t.subs| ==> unchanged(Objs(t.subs[m]))
  {
    MakeShortcuts(t.args);
    forall m | 0 <= m < |t.subs|
      ensures unchanged(Objs(t.subs[m]))
    {
      assert (set a | a in t.args) !! Objs(t.subs[m]);
    }
  }

  /** The recursive step for the `k`-th level below `t`: it changes no
      argument outside that level. */
  method PlanLevel(t: Level, k: nat)
    requires Separate(t) && k < |t.subs|
    requires forall m, a :: 0 <= m < |t.subs| && a in Objs(t.subs[m]) ==> allocated(a)
    modifies Objs(t.subs[k])`aliases
    ensures forall l :: l in Levels(t.subs[k]) ==> Planned(l)
    ensures unchanged(set a | a in t.args)
    ensures forall m :: 0 <= m < |t.subs| && m != k ==> unchanged(Objs(t.subs[m]))
    decreases t, 0
  {
    MakeShortcutsSubWise(t.subs[k]);
    forall m | 0 <= m < |t.subs| && m != k
      ensures unchanged(Objs(t.subs[m]))
    {
      if m < k {
        assert Objs(t.subs[m]) !! Objs(t.subs[k]);
      } else {
        assert Objs(t.subs[k]) !! Objs(t.subs[m]);
      }
    }
  }

  /** A level with one argument and no aliases: the argument gets its
      shortcut unless the shortcut is its own name. */
  lemma SingleLevel(name: string)
    requires MakeShortcut(name) != name
    ensures Shortcuts([(name, [])]) == [[MakeShortcut(name)]]
  {
    var one: seq<Item> := [(name, [])];
    assert NamesOf(one) == {name} by {
      assert one[..0] == [];
      assert ItemNames(one[0]) == [name];
    }
    assert one[..0] == [];
    assert Assign([], {name}) == ([], {name});
  }

  /** The same shortcut may serve in two levels: `alpha` and, one level
      down, `apple` each get `a`, since each level is planned alone. */
  lemma SubWiseExample()
    ensures Shortcuts([("alpha", [])]) == [["a"]] && Shortcuts([("apple", [])]) == [["a"]]
  {
    ShortcutWord("alpha");
    ShortcutWord("apple");
    SingleLevel("alpha");
    SingleLevel("apple");
  }

  /** In one level only the first of `alpha` and `apple` gets `a`. */
  lemma OneLevelExample()
    ensures Shortcuts([("alpha", []), ("apple", [])]) == [["a"], []]
  {
    ShortcutWord("alpha");
    ShortcutWord("apple");
    var both: seq<Item> := [("alpha", []), ("apple", [])];
    var one: seq<Item> := [("alpha", [])];
    var used := NamesOf(both);
    assert "a" !in used by {
      assert ItemNames(both[0]) == ["alpha"] && ItemNames(both[1]) == ["apple"];
      forall i | 0 <= i < |both|
        ensures "a" !in ItemNames(both[i])
      {
      }
    }
    assert both[..1] == one;
    assert MakeShortcut("alpha") == "a" && MakeShortcut("apple") == "a";
    assert Assign(one, used).0 == [["a"]] && Assign(one, used).1 == used + {"a"} by {
      assert one[..0] == [];
      assert Assign(one[..0], used) == ([], used);
    }
    assert Assign(both, used).0 == [["a"]] + [[]];
  }

  // ---------------------------------------------------------------------------
  // _add_prefixed_key

  /** A dictionary the caller hands over to be filled in place. */
  class Dict {
    var entries: map<string, PyVal>

    constructor (entries: map<string, PyVal>)
      ensures this.entries == entries
    {
      this.entries := entries;
    }
  }

  /** The writes `_add_prefixed_key` makes, in the order of `source`: a later
      key with the same rest overwrites an earlier one. */
  function Routed(source: seq<(string, PyVal)>, prefix: string): map<string, PyVal>
    decreases |source|
  {
    if source == [] then map[]
    else
      var last := source[|source| - 1];
      var init := Routed(source[..|source| - 1], prefix);
      match MatchPrefixRest(last.0, prefix)
      case Some(rest) => init[rest := last.1]
      case None => init
  }

  /** `_add_prefixed_key(source, target, prefix)`: every key `prefix + rest`
      of `source` stores its value in `target` under `rest`. */
  method AddPrefixedKey(source: seq<(string, PyVal)>, target: Dict, prefix: string)
    modifies target
    ensures target.entries == old(target.entries) + Routed(source, prefix)
  {
    for i := 0 to |source|
      invariant target.entries == old(target.entries) + Routed(source[..i], prefix)
    {
      assert source[..i + 1][..i] == source[..i];
      var m := MatchPrefixRest(source[i].0, prefix);
      if m.Some? {
        target.entries := target.entries[m.value := source[i].1];
      }
    }
    assert source[..|source|] == source;
  }

  /** A key is written iff some source key routes to it. */
  lemma {:induction false} RoutedKeys(source: seq<(string, PyVal)>, prefix: string, k: string)
    ensures k in Routed(source, prefix) <==> exists i :: 0 <= i < |source| && MatchPrefixRest(source[i].0, prefix) == Some(k)
    decreases |source|
  {
    if source != [] {
      var n := |source| - 1;
      RoutedKeys(source[..n], prefix, k);
      assert forall i :: 0 <= i < n ==> source[..n][i] == source[i];
    }
  }

  /** The value written under `k` is that of the last source key routed to it. */
  lemma {:induction false} RoutedLast(source: seq<(string, PyVal)>, prefix: string, i: nat, k: string)
    requires i < |source| && MatchPrefixRest(source[i].0, prefix) == Some(k)
    requires forall j :: i < j < |source| ==> MatchPrefixRest(source[j].0, prefix) != Some(k)
    ensures k in Routed(source, prefix) && Routed(source, prefix)[k] == source[i].1
    decreases |source|
  {
    var n := |source| - 1;
    if i < n {
      RoutedLast(source[..n], prefix, i, k);
    }
  }

  /** A key made of the prefix and a non-empty rest without a newline routes
      to that rest; the prefix alone, or a key not starting with it, does not
      route. */
  lemma PrefixRoute(prefix: string, rest: string)
    ensures '\n' !in rest && rest != [] ==> MatchPrefixRest(prefix + rest, prefix) == Some(rest)
    ensures MatchPrefixRest(prefix, prefix) == None
  {
    var s := prefix + rest;
    assert s[|prefix|..] == rest;
    assert prefix <= s;
    if '\n' !in rest && rest != [] {
      IndexOfNone(rest, '\n', 0);
      assert rest[..|rest|] == rest;
    }
    assert prefix[|prefix|..] == [];
  }

  /** `_add_prefixed_key(kwargs, tabulate_kwargs, 'tabulate_')` with
      `tabulate_tablefmt` and `gap`: only the first goes through, as
      `tablefmt`. */
  lemma RoutedExample()
    ensures Routed([("tabulate_tablefmt", PyStr("grid")), ("gap", PyStr(" "))], "tabulate_") == map["tablefmt" := PyStr("grid")]
  {
    var src := [("tabulate_tablefmt", PyStr("grid")), ("gap", PyStr(" "))];
    PrefixRoute("tabulate_", "tablefmt");
    assert "tabulate_" + "tablefmt" == "tabulate_tablefmt";
    assert !("tabulate_" <= "gap");
    assert src[..1][..0] == [];
  }

  // ---------------------------------------------------------------------------
  // _get_nargs

  /** `len(default or [])`: a falsy default counts as empty, a truthy one
      without a length raises TypeError. */
  function LenOrEmpty(v: PyVal): (r: Result<nat>)
    ensures !Truthy(v) ==> r == Ok(0)
    ensures r.Err? <==> Truthy(v) && !(v.PyStr? || v.PyList? || v.PyTuple?)
  {
    if !Truthy(v) then Ok(0)
    else
      match v
      case PyStr(s) => Ok(|s|)
      case PyList(xs) => Ok(|xs|)
      case PyTuple(xs) => Ok(|xs|)
      case _ => Result<nat>.Err(TypeError("object has no len()"))
  }

  /** `type(default[0])` for a default of positive length. */
  function FirstType(v: PyVal): Ty
    requires LenOrEmpty(v).Ok? && LenOrEmpty(v).value > 0
  {
    match v
    case PyStr(_) => StrT
    case PyList(xs) => TypeOf(xs[0])
    case PyTuple(xs) => TypeOf(xs[0])
  }

  /** `isinstance(typ.__args__[0], type)`: a class, not a generic alias nor
      the `str2bool` converter. */
  predicate IsClass(t: Ty) {
    !t.ListOf? && t != Str2BoolT
  }

  /** `_get_nargs(typ, default)`: the element type and the `nargs` mode of a
      list-typed field, or the type itself and no mode. */
  function GetNargs(typ: Ty, default: PyVal): (r: Result<(Ty, Option<string>)>)
    ensures r.Err? <==> (typ == ListT || typ.ListOf?) && LenOrEmpty(default).Err?
    ensures r.Ok? ==> (r.value.1.Some? <==> typ == ListT || typ.ListOf?)
    ensures r.Ok? && r.value.1.Some? ==>
      (r.value.1 == Some("*") <==> LenOrEmpty(default).value == 0) && r.value.1 != Some("")
  {
    if typ == ListT then
      var n := LenOrEmpty(default);
      if n.Err? then Err(n.error)
      else if n.value == 0 then Ok((StrT, Some("*")))
      else Ok((FirstType(default), Some("+")))
    else if typ.ListOf? then
      var elem := if typ.arg.Some? && IsClass(typ.arg.value) then typ.arg.value else StrT;
      var n := LenOrEmpty(default);
      if n.Err? then Err(n.error)
      else Ok((elem, Some(if n.value == 0 then "*" else "+")))
    else Ok((typ, None))
  }

  /** A plain `list` field: `*` of `str` when the default is empty or falsy,
      else `+` of the type of its first item. */
  lemma GetNargsList(default: PyVal)
    ensures !Truthy(default) ==> GetNargs(ListT, default) == Ok((StrT, Some("*")))
    ensures default.PyList? && default.items != [] ==> GetNargs(ListT, default) == Ok((TypeOf(default.items[0]), Some("+")))
    ensures GetNargs(ListT, default).Err? <==> Truthy(default) && !(default.PyStr? || default.PyList? || default.PyTuple?)
  {
  }

  /** `List[t]`: the mode is `*` exactly when the default is empty, and the
      element type is `t` when it is a class, `str` otherwise. */
  lemma GetNargsTyped(arg: Option<Ty>, default: PyVal)
    requires LenOrEmpty(default).Ok?
    ensures var r := GetNargs(ListOf(arg), default);
      r.Ok? && (r.value.1 == Some("*") <==> LenOrEmpty(default).value == 0) && r.value.1 != None &&
      r.value.0 == (if arg.Some? && IsClass(arg.value) then arg.value else StrT)
  {
  }

  /** Any other type passes through with no mode, whatever the default. */
  lemma GetNargsOther(typ: Ty, default: PyVal)
    requires typ != ListT && !typ.ListOf?
    ensures GetNargs(typ, default) == Ok((typ, None))
  {
  }

  // ---------------------------------------------------------------------------
  // Insertion-ordered dicts

  /** A Python dict, as its items in insertion order. */
  type Entries<V> = seq<(string, V)>

  function KeySet<V>(d: Entries<V>): set<string> {
    set i | 0 <= i < |d| :: d[i].0
  }

  predicate DistinctKeys<V>(d: Entries<V>) {
    forall i, j :: 0 <= i < j < |d| ==> d[i].0 != d[j].0
  }

  lemma KeySetConcat<V>(p: Entries<V>, q: Entries<V>)
    ensures KeySet(p + q) == KeySet(p) + KeySet(q)
  {
    var s := p + q;
    assert forall i :: 0 <= i < |p| ==> s[i] == p[i];
    assert forall i :: 0 <= i < |q| ==> s[|p| + i] == q[i];
    assert forall k :: k in KeySet(s) ==> k in KeySet(p) + KeySet(q);
  }

  lemma KeySetSnoc<V>(d: Entries<V>, x: (string, V))
    ensures KeySet(d + [x]) == KeySet(d) + {x.0}
  {
    var s := d + [x];
    assert forall i :: 0 <= i < |d| ==> s[i] == d[i];
    assert s[|d|] == x;
    assert forall k :: k in KeySet(s) ==> k in KeySet(d) + {x.0};
  }

  /** The last key of a dict with distinct keys is not among the others. */
  lemma DistinctLast<V>(d: Entries<V>)
    requires DistinctKeys(d) && d != []
    ensures DistinctKeys(d[..|d| - 1]) && d[|d| - 1].0 !in KeySet(d[..|d| - 1])
  {
    var pre := d[..|d| - 1];
    assert forall i :: 0 <= i < |pre| ==> pre[i] == d[i];
    assert forall i :: 0 <= i < |pre| ==> pre[i].0 != d[|d| - 1].0;
  }

  lemma DistinctSnoc<V>(d: Entries<V>, x: (string, V))
    requires DistinctKeys(d) && x.0 !in KeySet(d)
    ensures DistinctKeys(d + [x])
  {
    assert forall i :: 0 <= i < |d| ==> d[i].0 in KeySet(d);
  }

  /** `d.get(k)`. */
  function Lookup<V>(d: Entries<V>, k: string): (r: Option<V>)
    ensures r.Some? <==> k in KeySet(d)
    ensures r.Some? ==> (k, r.value) in d
    decreases |d|
  {
    if d == [] then None
    else
      var init := d[..|d| - 1];
      assert init + [d[|d| - 1]] == d;
      KeySetSnoc(init, d[|d| - 1]);
      var f := Lookup(init, k);
      if f.Some? then f
      else if d[|d| - 1].0 == k then Some(d[|d| - 1].1)
      else None
  }

  /** `for k, v in e.items(): if k not in d: d[k] = v`. */
  function MergeAbsent<V>(d: Entries<V>, e: Entries<V>): (r: Entries<V>)
    ensures KeySet(r) == KeySet(d) + KeySet(e)
    ensures DistinctKeys(d) ==> DistinctKeys(r)
    ensures forall x :: x in r ==> x in d || x in e
    decreases |e|
  {
    if e == [] then d
    else
      var init, last := e[..|e| - 1], e[|e| - 1];
      assert init + [last] == e;
      KeySetSnoc(init, last);
      assert forall x :: x in init ==> x in e;
      var m := MergeAbsent(d, init);
      if last.0 in KeySet(m) then m
      else
        KeySetSnoc(m, last);
        if DistinctKeys(d) then DistinctSnoc(m, last); m + [last]
        else m + [last]
  }

  /** The same merge over each dict of `es` in turn. */
  function MergeAll<V>(d: Entries<V>, es: seq<Entries<V>>): (r: Entries<V>)
    ensures DistinctKeys(d) ==> DistinctKeys(r)
    decreases |es|
  {
    if es == [] then d else MergeAbsent(MergeAll(d, es[..|es| - 1]), es[|es| - 1])
  }

  /** One more dict to merge. */
  lemma MergeAllStep<V>(d: Entries<V>, es: seq<Entries<V>>, b: nat)
    requires b < |es|
    ensures MergeAll(d, es[..b + 1]) == MergeAbsent(MergeAll(d, es[..b]), es[b])
  {
    assert es[..b + 1][..b] == es[..b];
  }

  lemma MergeAllWhole<V>(d: Entries<V>, es: seq<Entries<V>>)
    ensures MergeAll(d, es[..|es|]) == MergeAll(d, es)
  {
    assert es[..|es|] == es;
  }

  lemma LookupSnoc<V>(d: Entries<V>, x: (string, V), k: string)
    ensures Lookup(d + [x], k) == if k in KeySet(d) then Lookup(d, k) else if x.0 == k then Some(x.1) else None
  {
    assert (d + [x])[..|d|] == d;
  }

  lemma {:induction false} LookupConcat<V>(p: Entries<V>, q: Entries<V>, k: string)
    ensures Lookup(p + q, k) == if k in KeySet(p) then Lookup(p, k) else Lookup(q, k)
    decreases |q|
  {
    if q == [] {
      assert p + q == p;
    } else {
      var n := |q| - 1;
      LookupConcat(p, q[..n], k);
      assert p + q == (p + q[..n]) + [q[n]];
      LookupSnoc(p + q[..n], q[n], k);
      LookupSnoc(q[..n], q[n], k);
      assert q[..n] + [q[n]] == q;
      KeySetConcat(p, q[..n]);
    }
  }

  /** A merge keeps what `d` has and takes from `e` only what `d` lacks. */
  lemma {:induction false} MergeLookup<V>(d: Entries<V>, e: Entries<V>, k: string)
    ensures Lookup(MergeAbsent(d, e), k) == if k in KeySet(d) then Lookup(d, k) else Lookup(e, k)
    decreases |e|
  {
    if e != [] {
      var n := |e| - 1;
      MergeLookup(d, e[..n], k);
      var m := MergeAbsent(d, e[..n]);
      if e[n].0 !in KeySet(m) {
        LookupSnoc(m, e[n], k);
      }
      LookupSnoc(e[..n], e[n], k);
      assert e[..n] + [e[n]] == e;
    }
  }

  /** What the merges over `es` find for `k`: the value in `d` when `d` has
      it, else the value in the first of `es` that has it. */
  lemma {:induction false} MergeAllKeep<V>(d: Entries<V>, es: seq<Entries<V>>, k: string)
    requires k in KeySet(d)
    ensures Lookup(MergeAll(d, es), k) == Lookup(d, k)
    decreases |es|
  {
    if es != [] {
      MergeAllKeep(d, es[..|es| - 1], k);
      MergeLookup(MergeAll(d, es[..|es| - 1]), es[|es| - 1], k);
    }
  }

  lemma {:induction false} MergeAllAbsent<V>(d: Entries<V>, es: seq<Entries<V>>, k: string)
    requires k !in KeySet(d)
    requires forall i :: 0 <= i < |es| ==> k !in KeySet(es[i])
    ensures k !in KeySet(MergeAll(d, es))
    decreases |es|
  {
    if es != [] {
      MergeAllAbsent(d, es[..|es| - 1], k);
    }
  }

  lemma {:induction false} MergeAllFirst<V>(d: Entries<V>, es: seq<Entries<V>>, j: nat, k: string)
    requires j < |es| && k !in KeySet(d) && k in KeySet(es[j])
    requires forall i :: 0 <= i < j ==> k !in KeySet(es[i])
    ensures Lookup(MergeAll(d, es), k) == Lookup(es[j], k)
    decreases |es|
  {
    var n := |es| - 1;
    var pre := es[..n];
    assert forall i :: 0 <= i < n ==> pre[i] == es[i];
    var m := MergeAll(d, pre);
    var r := MergeAbsent(m, es[n]);
    assert MergeAll(d, es) == r;
    MergeLookup(m, es[n], k);
    if j < n {
      MergeAllFirst(d, pre, j, k);
      var v := Lookup(m, k);
      assert v == Lookup(es[j], k) && v.Some?;
      assert k in KeySet(m);
      assert Lookup(r, k) == v;
    } else {
      MergeAllAbsent(d, pre, k);
      assert Lookup(r, k) == Lookup(es[n], k);
    }
  }

  /** Every item of the merged dict comes from `d` or from one of `es`. */
  lemma {:induction false} MergeAllFrom<V>(d: Entries<V>, es: seq<Entries<V>>, x: (string, V))
    requires x in MergeAll(d, es)
    ensures x in d || exists i :: 0 <= i < |es| && x in es[i]
    decreases |es|
  {
    if es != [] {
      var n := |es| - 1;
      if x !in es[n] {
        MergeAllFrom(d, es[..n], x);
        if x !in d {
          var i :| 0 <= i < n && x in es[..n][i];
          assert es[..n][i] == es[i];
        }
      }
    }
  }

  /** The loop `for k, v in e.items(): if k not in d: d[k] = v` over a copy. */
  method AddMissing<V>(d: Entries<V>, e: Entries<V>) returns (r: Entries<V>)
    ensures r == MergeAbsent(d, e)
  {
    r := d;
    for j := 0 to |e|
      invariant r == MergeAbsent(d, e[..j])
    {
      assert e[..j + 1][..j] == e[..j];
      if e[j].0 !in KeySet(r) {
        r := r + [e[j]];
      }
    }
    assert e[..|e|] == e;
  }

  // ---------------------------------------------------------------------------
  // _collect_annotations, _get_fields, _get_type_and_nargs

  /** A class as these functions see it: its own `__dict__`, its own
      `__annotations__` and its `__bases__`. */
  datatype PyClass = PyClass(name: string, members: Entries<PyVal>, ann: Entries<Ty>, bases: seq<PyClass>)

  /** `_collect_annotations(cls)`: the class's own annotations, then, base
      by base, those of the base's hierarchy it does not have yet. */
  function Annotations(c: PyClass): Entries<Ty>
    decreases c
  {
    MergeAll(c.ann, seq(|c.bases|, i requires 0 <= i < |c.bases| => Annotations(c.bases[i])))
  }

  method CollectAnnotations(c: PyClass) returns (ann: Entries<Ty>)
    ensures ann == Annotations(c)
    decreases c
  {
    ghost var es := seq(|c.bases|, i requires 0 <= i < |c.bases| => Annotations(c.bases[i]));
    ann := c.ann;
    for b := 0 to |c.bases|
      invariant ann == MergeAll(c.ann, es[..b])
    {
      var inherited := CollectAnnotations(c.bases[b]);
      MergeAllStep(c.ann, es, b);
      ann := AddMissing(ann, inherited);
    }
    MergeAllWhole(c.ann, es);
  }

  /** A class's own annotation wins; a name it does not annotate takes the
      type of the first base whose hierarchy annotates it. */
  lemma AnnotationsLookup(c: PyClass, k: string, j: nat)
    ensures k in KeySet(c.ann) ==> Lookup(Annotations(c), k) == Lookup(c.ann, k)
    ensures k !in KeySet(c.ann) && j < |c.bases| && k in KeySet(Annotations(c.bases[j])) &&
            (forall i :: 0 <= i < j ==> k !in KeySet(Annotations(c.bases[i]))) ==>
            Lookup(Annotations(c), k) == Lookup(Annotations(c.bases[j]), k)
  {
    var es := seq(|c.bases|, i requires 0 <= i < |c.bases| => Annotations(c.bases[i]));
    if k in KeySet(c.ann) {
      MergeAllKeep(c.ann, es, k);
    } else if j < |c.bases| && k in KeySet(Annotations(c.bases[j])) &&
              (forall i :: 0 <= i < j ==> k !in KeySet(Annotations(c.bases[i]))) {
      MergeAllFirst(c.ann, es, j, k);
    }
  }

  /** The collected annotations name each field once. */
  lemma AnnotationsDistinct(c: PyClass)
    requires DistinctKeys(c.ann)
    ensures DistinctKeys(Annotations(c))
  {
  }

  predicate IsDunder(k: string) {
    "__" <= k
  }

  /** `key.startswith('__') or isinstance(value, type)`: built-ins and nested
      classes are not fields. */
  predicate Skipped(k: string, v: PyVal) {
    IsDunder(k) || (v.PyType? && IsClass(v.t))
  }

  /** The items of a class's own `__dict__` that are fields, in order. */
  function OwnFields(members: Entries<PyVal>): (r: Entries<PyVal>)
    ensures forall x :: x in r ==> x in members && !Skipped(x.0, x.1)
    ensures KeySet(r) <= KeySet(members)
    ensures DistinctKeys(members) ==> DistinctKeys(r)
    decreases |members|
  {
    if members == [] then []
    else
      var pre, x := members[..|members| - 1], members[|members| - 1];
      assert pre + [x] == members;
      KeySetSnoc(pre, x);
      var init := OwnFields(pre);
      if Skipped(x.0, x.1) then init
      else
        KeySetSnoc(init, x);
        if DistinctKeys(members) then
          assert forall i :: 0 <= i < |pre| ==> pre[i] == members[i];
          assert x.0 !in KeySet(pre);
          DistinctSnoc(init, x); init + [x]
        else init + [x]
  }

  /** An own field is found with its own value. */
  lemma {:induction false} OwnLookup(members: Entries<PyVal>, i: nat)
    requires DistinctKeys(members) && i < |members| && !Skipped(members[i].0, members[i].1)
    ensures Lookup(OwnFields(members), members[i].0) == Some(members[i].1)
    decreases |members|
  {
    var n := |members| - 1;
    var pre, x := members[..n], members[n];
    DistinctLast(members);
    var init := OwnFields(pre);
    if i < n {
      assert pre[i] == members[i];
      OwnLookup(pre, i);
      if !Skipped(x.0, x.1) {
        LookupSnoc(init, x, members[i].0);
      }
    } else {
      LookupSnoc(init, x, x.0);
    }
  }

  /** `{k: None for k in ann if k not in taken}`. */
  function Placeholders(ann: Entries<Ty>, taken: set<string>): (r: Entries<PyVal>)
    ensures forall x :: x in r ==> x.1 == PyNone && x.0 in KeySet(ann) && x.0 !in taken
    ensures forall k :: k in KeySet(ann) && k !in taken ==> k in KeySet(r)
    ensures DistinctKeys(ann) ==> DistinctKeys(r)
    decreases |ann|
  {
    if ann == [] then []
    else
      var init, last := ann[..|ann| - 1], ann[|ann| - 1];
      assert init + [last] == ann;
      KeySetSnoc(init, last);
      var r := Placeholders(init, taken);
      if last.0 in taken then r
      else
        var x := (last.0, PyNone);
        KeySetSnoc(r, x);
        if DistinctKeys(ann) then
          assert forall i :: 0 <= i < |init| ==> init[i] == ann[i];
          assert last.0 !in KeySet(init);
          DistinctSnoc(r, x); r + [x]
        else r + [x]
  }

  /** `_get_fields(cls, ann)` as written: a `None` placeholder for every
      annotated name missing from the class's own `__dict__`, then its own
      fields, then, base by base, the base's fields it does not have yet. */
  function FieldsOf(c: PyClass, ann: Entries<Ty>): Entries<PyVal>
    decreases c
  {
    MergeAll(Placeholders(ann, KeySet(c.members)) + OwnFields(c.members),
             seq(|c.bases|, i requires 0 <= i < |c.bases| => FieldsOf(c.bases[i], ann)))
  }

  /** The first statement of `_get_fields`: a `None` placeholder for each
      annotated name the class's `__dict__` lacks. */
  method AnnotatedOnly(ann: Entries<Ty>, members: Entries<PyVal>) returns (fields: Entries<PyVal>)
    ensures fields == Placeholders(ann, KeySet(members))
  {
    fields := [];
    for i := 0 to |ann|
      invariant fields == Placeholders(ann[..i], KeySet(members))
    {
      assert ann[..i + 1][..i] == ann[..i];
      if ann[i].0 !in KeySet(members) {
        fields := fields + [(ann[i].0, PyNone)];
      }
    }
    assert ann[..|ann|] == ann;
  }

  /** The loop of `_get_fields` over the class's own `__dict__`. Its keys are
      distinct, so `fields[key] = value` adds a new entry. */
  method AddOwn(fields: Entries<PyVal>, members: Entries<PyVal>) returns (r: Entries<PyVal>)
    ensures r == fields + OwnFields(members)
  {
    r := fields;
    for i := 0 to |members|
      invariant r == fields + OwnFields(members[..i])
    {
      assert members[..i + 1][..i] == members[..i];
      var (key, value) := members[i];
      if !Skipped(key, value) {
        r := r + [(key, value)];
      }
    }
    assert members[..|members|] == members;
  }

  /** `_get_fields`. */
  method GetFields(c: PyClass, ann: Entries<Ty>) returns (fields: Entries<PyVal>)
    ensures fields == FieldsOf(c, ann)
    decreases c
  {
    fields := AnnotatedOnly(ann, c.members);
    fields := AddOwn(fields, c.members);
    ghost var es := seq(|c.bases|, i requires 0 <= i < |c.bases| => FieldsOf(c.bases[i], ann));
    ghost var start := fields;
    for b := 0 to |c.bases|
      invariant fields == MergeAll(start, es[..b])
    {
      var inherited := GetFields(c.bases[b], ann);
      MergeAllStep(start, es, b);
      fields := AddMissing(fields, inherited);
    }
    MergeAllWhole(start, es);
  }

  lemma NotInKeys<V>(d: Entries<V>, k: string)
    requires forall x :: x in d ==> x.0 != k
    ensures k !in KeySet(d)
  {
    assert forall i :: 0 <= i < |d| ==> d[i] in d;
  }

  lemma DistinctConcat<V>(p: Entries<V>, q: Entries<V>)
    requires DistinctKeys(p) && DistinctKeys(q) && KeySet(p) !! KeySet(q)
    ensures DistinctKeys(p + q)
  {
    var s := p + q;
    assert forall i :: 0 <= i < |p| ==> s[i] == p[i] && p[i].0 in KeySet(p);
    assert forall i :: 0 <= i < |q| ==> s[|p| + i] == q[i] && q[i].0 in KeySet(q);
    forall i, j | 0 <= i < j < |s| ensures s[i].0 != s[j].0 {
      if j >= |p| && i < |p| {
        assert s[j] == q[j - |p|];
      } else if i >= |p| {
        assert s[i] == q[i - |p|] && s[j] == q[j - |p|];
      }
    }
  }

  /** What `_get_fields(cls, ann)` finds for a name, before the bases. */
  lemma FieldsHead(c: PyClass, ann: Entries<Ty>, k: string)
    ensures var head := Placeholders(ann, KeySet(c.members)) + OwnFields(c.members);
      k in KeySet(head) ==> Lookup(FieldsOf(c, ann), k) == Lookup(head, k)
  {
    var head := Placeholders(ann, KeySet(c.members)) + OwnFields(c.members);
    if k in KeySet(head) {
      MergeAllKeep(head, seq(|c.bases|, i requires 0 <= i < |c.bases| => FieldsOf(c.bases[i], ann)), k);
    }
  }

  /** A field the class sets itself keeps its own value. */
  lemma FieldsOwnValue(c: PyClass, ann: Entries<Ty>, i: nat)
    requires DistinctKeys(c.members) && i < |c.members| && !Skipped(c.members[i].0, c.members[i].1)
    ensures Lookup(FieldsOf(c, ann), c.members[i].0) == Some(c.members[i].1)
  {
    var k := c.members[i].0;
    var p, own := Placeholders(ann, KeySet(c.members)), OwnFields(c.members);
    assert k in KeySet(c.members);
    OwnLookup(c.members, i);
    NotInKeys(p, k);
    KeySetConcat(p, own);
    LookupConcat(p, own, k);
    FieldsHead(c, ann, k);
  }

  /** An annotated name the class's own `__dict__` lacks is `None`, whatever
      the bases hold. */
  lemma FieldsAnnotatedOnly(c: PyClass, ann: Entries<Ty>, k: string)
    requires k in KeySet(ann) && k !in KeySet(c.members)
    ensures Lookup(FieldsOf(c, ann), k) == Some(PyNone)
  {
    var p, own := Placeholders(ann, KeySet(c.members)), OwnFields(c.members);
    var v := Lookup(p, k).value;
    assert (k, v) in p;
    KeySetConcat(p, own);
    LookupConcat(p, own, k);
    FieldsHead(c, ann, k);
  }

  /** A name neither annotated nor set by the class comes from the first base
      that has it, in `__bases__` order. */
  lemma FieldsInherited(c: PyClass, ann: Entries<Ty>, k: string, j: nat)
    requires k !in KeySet(ann) && k !in KeySet(OwnFields(c.members))
    requires j < |c.bases| && k in KeySet(FieldsOf(c.bases[j], ann))
    requires forall i :: 0 <= i < j ==> k !in KeySet(FieldsOf(c.bases[i], ann))
    ensures Lookup(FieldsOf(c, ann), k) == Lookup(FieldsOf(c.bases[j], ann), k)
  {
    var p, own := Placeholders(ann, KeySet(c.members)), OwnFields(c.members);
    NotInKeys(p, k);
    KeySetConcat(p, own);
    MergeAllFirst(p + own, seq(|c.bases|, i requires 0 <= i < |c.bases| => FieldsOf(c.bases[i], ann)), j, k);
  }

  /** No field holds a class, and a dunder name appears only when annotated. */
  predicate CleanField(x: (string, PyVal), ann: Entries<Ty>) {
    !(x.1.PyType? && IsClass(x.1.t)) && (IsDunder(x.0) ==> x.0 in KeySet(ann))
  }

  lemma FieldsClean(c: PyClass, ann: Entries<Ty>)
    ensures forall x :: x in FieldsOf(c, ann) ==> CleanField(x, ann)
    decreases c
  {
    var es := seq(|c.bases|, i requires 0 <= i < |c.bases| => FieldsOf(c.bases[i], ann));
    forall i | 0 <= i < |c.bases| ensures forall x :: x in es[i] ==> CleanField(x, ann) {
      FieldsClean(c.bases[i], ann);
    }
    var head := Placeholders(ann, KeySet(c.members)) + OwnFields(c.members);
    forall x | x in FieldsOf(c, ann) ensures CleanField(x, ann) {
      MergeAllFrom(head, es, x);
    }
  }

  /** Each name appears once in the fields of a class. */
  lemma FieldsDistinct(c: PyClass, ann: Entries<Ty>)
    requires DistinctKeys(ann) && DistinctKeys(c.members)
    ensures DistinctKeys(FieldsOf(c, ann))
  {
    var p, own := Placeholders(ann, KeySet(c.members)), OwnFields(c.members);
    forall k | k in KeySet(p) ensures k !in KeySet(own) {
      var v := Lookup(p, k).value;
      assert (k, v) in p;
    }
    DistinctConcat(p, own);
  }

  /** The fields that carry a value somewhere in the hierarchy: the class's
      own, then those of each base it does not set. */
  function Valued(c: PyClass): Entries<PyVal>
    decreases c
  {
    MergeAll(OwnFields(c.members), seq(|c.bases|, i requires 0 <= i < |c.bases| => Valued(c.bases[i])))
  }

  /** `_get_fields` as evidently intended: the `None` placeholder only for an
      annotated name no class of the hierarchy gives a value. */
  function FixedFieldsOf(c: PyClass, ann: Entries<Ty>): (r: Entries<PyVal>)
    ensures KeySet(r) == KeySet(ann) + KeySet(Valued(c))
  {
    var head := Placeholders(ann, KeySet(Valued(c)));
    KeySetConcat(head, Valued(c));
    assert forall k :: k in KeySet(head) ==> k in KeySet(ann) by {
      forall k | k in KeySet(head) ensures k in KeySet(ann) {
        var x :| x in head && x.0 == k;
      }
    }
    head + Valued(c)
  }

  /** The corrected fields: a value set in the hierarchy wins, an annotated
      name without one is `None`, any other name is absent. */
  lemma FixedFieldsLookup(c: PyClass, ann: Entries<Ty>, k: string)
    ensures Lookup(FixedFieldsOf(c, ann), k) ==
      if k in KeySet(Valued(c)) then Lookup(Valued(c), k)
      else if k in KeySet(ann) then Some(PyNone)
      else None
  {
    var p := Placeholders(ann, KeySet(Valued(c)));
    if k in KeySet(p) {
      var v := Lookup(p, k).value;
      assert (k, v) in p;
    }
    LookupConcat(p, Valued(c), k);
  }

  /** The corrected fields keep a class's own value. */
  lemma FixedFieldsOwn(c: PyClass, ann: Entries<Ty>, i: nat)
    requires DistinctKeys(c.members) && i < |c.members| && !Skipped(c.members[i].0, c.members[i].1)
    ensures Lookup(FixedFieldsOf(c, ann), c.members[i].0) == Some(c.members[i].1)
  {
    var k := c.members[i].0;
    OwnLookup(c.members, i);
    MergeAllKeep(OwnFields(c.members), seq(|c.bases|, j requires 0 <= j < |c.bases| => Valued(c.bases[j])), k);
    FixedFieldsLookup(c, ann, k);
  }

  /** The corrected fields keep an inherited value the class does not
      redefine, annotated or not. */
  lemma FixedFieldsInherited(c: PyClass, ann: Entries<Ty>, k: string, j: nat)
    requires k !in KeySet(OwnFields(c.members))
    requires j < |c.bases| && k in KeySet(Valued(c.bases[j]))
    requires forall i :: 0 <= i < j ==> k !in KeySet(Valued(c.bases[i]))
    ensures Lookup(FixedFieldsOf(c, ann), k) == Lookup(Valued(c.bases[j]), k)
  {
    var es := seq(|c.bases|, i requires 0 <= i < |c.bases| => Valued(c.bases[i]));
    MergeAllFirst(OwnFields(c.members), es, j, k);
    FixedFieldsLookup(c, ann, k);
  }

  /** `class A: a: int = 1` and `class B(A): pass`. */
  const BaseA := PyClass("A", [("__module__", PyStr("m")), ("a", PyInt(1))], [("a", IntT)], [])
  const ChildB := PyClass("B", [("__module__", PyStr("m"))], [], [BaseA])

  lemma MergeOne<V>(d: Entries<V>, e: Entries<V>, x: (string, V))
    ensures MergeAll(d, [e]) == MergeAbsent(d, e)
    ensures MergeAbsent(d, [x]) == if x.0 in KeySet(d) then d else d + [x]
  {
    assert [e][..0] == [] && [x][..0] == [];
  }

  /** `B` collects `A`'s annotation of `a`. */
  lemma ExampleAnnotations()
    ensures Annotations(BaseA) == [("a", IntT)]
    ensures Annotations(ChildB) == [("a", IntT)]
  {
    var ann := [("a", IntT)];
    KeySetSnoc([], ("a", IntT));
    assert [] + [("a", IntT)] == ann;
    assert Annotations(BaseA) == ann;
    var es := seq(|ChildB.bases|, i requires 0 <= i < |ChildB.bases| => Annotations(ChildB.bases[i]));
    assert es == [ann] && es[..0] == [];
    assert MergeAll([], es) == MergeAbsent([], ann);
  }

  lemma ExampleOwn()
    ensures KeySet(BaseA.members) == {"__module__", "a"} && KeySet(ChildB.members) == {"__module__"}
    ensures OwnFields(BaseA.members) == [("a", PyInt(1))] && OwnFields(ChildB.members) == []
  {
    var m, a1 := ("__module__", PyStr("m")), ("a", PyInt(1));
    var none: Entries<PyVal> := [];
    assert KeySet(none) == {};
    KeySetSnoc(none, m);
    assert none + [m] == [m];
    KeySetSnoc([m], a1);
    assert [m] + [a1] == BaseA.members;
    ExampleOwnFields();
  }

  lemma ExampleOwnFields()
    ensures OwnFields(BaseA.members) == [("a", PyInt(1))] && OwnFields(ChildB.members) == []
  {
    var m, a1 := ("__module__", PyStr("m")), ("a", PyInt(1));
    assert Skipped(m.0, m.1) && !Skipped(a1.0, a1.1);
    assert [m][..0] == [];
    assert OwnFields([m]) == [];
    assert BaseA.members[..1] == [m];
    assert [] + [a1] == [a1];
  }

  /** On its own, `A` has `a = 1`. */
  lemma ExampleBaseFields()
    ensures FieldsOf(BaseA, [("a", IntT)]) == [("a", PyInt(1))]
  {
    ExampleOwn();
    var ann := [("a", IntT)];
    assert ann[..0] == [];
    assert Placeholders(ann, {"__module__", "a"}) == [];
  }

  /** As written, `B` loses the default `A` gives `a`: the inherited
      annotation makes `a` a placeholder before the bases are looked at. */
  lemma InheritedDefaultLost()
    ensures FieldsOf(ChildB, Annotations(ChildB)) == [("a", PyNone)]
  {
    ExampleAnnotations();
    ExampleBaseFields();
    ExampleChildHead();
    var ann, a1, none := [("a", IntT)], ("a", PyInt(1)), ("a", PyNone);
    var es := seq(|ChildB.bases|, i requires 0 <= i < |ChildB.bases| => FieldsOf(ChildB.bases[i], ann));
    assert es == [[a1]];
    KeySetSnoc([], none);
    MergeOne([none], [a1], a1);
  }

  /** Before its bases, `B` has only the placeholder for `a`. */
  lemma ExampleChildHead()
    ensures Placeholders([("a", IntT)], KeySet(ChildB.members)) + OwnFields(ChildB.members) == [("a", PyNone)]
  {
    ExampleOwn();
    var ann := [("a", IntT)];
    assert ann[..0] == [];
    assert Placeholders(ann, {"__module__"}) == [] + [("a", PyNone)];
  }

  /** Corrected, `B` keeps `a = 1`. */
  lemma InheritedDefaultKept()
    ensures FixedFieldsOf(ChildB, Annotations(ChildB)) == [("a", PyInt(1))]
  {
    ExampleAnnotations();
    ExampleOwn();
    var ann, a1 := [("a", IntT)], ("a", PyInt(1));
    assert Valued(BaseA) == MergeAll([a1], []) == [a1];
    var es := seq(|ChildB.bases|, i requires 0 <= i < |ChildB.bases| => Valued(ChildB.bases[i]));
    assert es == [[a1]];
    MergeOne([], [a1], a1);
    assert [] + [a1] == [a1];
    assert Valued(ChildB) == MergeAll([], es);
    KeySetSnoc([], a1);
    assert ann[..0] == [];
    assert Placeholders(ann, {"a"}) == [];
  }

  // ---------------------------------------------------------------------------
  // _get_type_and_nargs

  /** `_get_type_and_nargs(ann, name, default)`: the annotated type, else the
      type of the default (none for a `None` default), then `_get_nargs`. */
  function GetTypeAndNargs(ann: Entries<Ty>, name: string, default: PyVal): (r: Result<(Option<Ty>, Option<string>)>)
    ensures (r.Ok? && r.value.0.None?) <==> name !in KeySet(ann) && default == PyNone
    ensures r.Ok? && r.value.0.None? ==> r.value.1.None?
    ensures r.Err? ==> Truthy(default) && LenOrEmpty(default).Err?
  {
    var typ := if name in KeySet(ann) then Lookup(ann, name)
               else if default == PyNone then None
               else Some(TypeOf(default));
    match typ
    case None => Ok((None, None))
    case Some(t) =>
      match GetNargs(t, default)
      case Ok(p) => Ok((Some(p.0), p.1))
      case Err(e) => Err(e)
  }

  /** The annotation wins over the default's type; an unannotated field
      takes its type from the default. */
  lemma TypeAndNargsCases(ann: Entries<Ty>, name: string, default: PyVal)
    ensures Lookup(ann, name) == Some(IntT) ==> GetTypeAndNargs(ann, name, default) == Ok((Some(IntT), None))
    ensures name !in KeySet(ann) && default == PyNone ==> GetTypeAndNargs(ann, name, default) == Ok((None, None))
    ensures name !in KeySet(ann) && (default.PyInt? || default.PyStr? || default.PyBool? || default.PyFloat?) ==>
      GetTypeAndNargs(ann, name, default) == Ok((Some(TypeOf(default)), None))
    ensures name !in KeySet(ann) && default.PyList? && default.items != [] ==>
      GetTypeAndNargs(ann, name, default) == Ok((Some(TypeOf(default.items[0])), Some("+")))
    ensures name !in KeySet(ann) && default == PyList([]) ==>
      GetTypeAndNargs(ann, name, default) == Ok((Some(StrT), Some("*")))
  {
  }
}
