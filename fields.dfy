/** argser's argument descriptions (`argser/fields.py`): an `Arg` object holds
    what one command-line option needs, renders its option strings, resolves
    its metavar, assembles the keyword arguments of `add_argument` and decides
    which calls it makes on a parser. `PosArg` is the positional variant; here
    it is an `Arg` whose constant `positional` is set. */
module Fields {
  import opened Py

  /** The keyword arguments of one `add_argument` call, by name. */
  type ParamMap = map<string, PyVal>

  /** One call `inject` makes on the parser it is given. */
  datatype Call =
    | AddArgument(names: seq<string>, params: ParamMap)
    | SetDefaults(dest: string, value: PyVal)

  /** The option string for a name: one dash for one-letter names or with
      `one_dash`, two dashes otherwise. */
  function Dashed(name: string, oneDash: bool): string {
    if |name| == 1 || oneDash then "-" + name else "--" + name
  }

  /** `dict.pop(key)` for each key in turn: a key that is absent by then
      (missing from the start, or a repeated key) raises KeyError. */
  function PopAll(m: ParamMap, keys: seq<string>): (r: Result<ParamMap>)
    ensures r.Ok? <==> (forall i :: 0 <= i < |keys| ==> keys[i] in m)
                       && (forall i, j :: 0 <= i < j < |keys| ==> keys[i] != keys[j])
    ensures r.Ok? ==> r.value == m - set k | k in keys
    ensures r.Err? ==> exists i :: 0 <= i < |keys| && r.error == KeyError(keys[i])
    decreases |keys|
  {
    if keys == [] then Ok(m)
    else if keys[0] !in m then Err(KeyError(keys[0]))
    else
      var r := PopAll(m - {keys[0]}, keys[1..]);
      assert forall i :: 1 <= i < |keys| ==> keys[i] == keys[1..][i - 1];
      if r.Ok? then
        assert r.value == m - set k | k in keys by {
          assert (set k | k in keys) == {keys[0]} + set k | k in keys[1..];
        }
        r
      else r
  }

  /** The comprehension `{k: v for k, v in params.items() if v is not None}`. */
  function DropNone(m: ParamMap): (r: ParamMap)
    ensures forall k :: k in r <==> k in m && m[k] != PyNone
    ensures forall k :: k in r ==> r[k] == m[k]
  {
    map k | k in m && m[k] != PyNone :: m[k]
  }

  /** The actions whose `add_argument` takes no `type`. */
  predicate TypeFreeAction(action: PyVal) {
    action.PyStr? && action.s in {"store_const", "store_true", "store_false", "append_const", "version", "count"}
  }

  /** The actions whose `add_argument` takes no `metavar`. */
  predicate MetavarFreeAction(action: PyVal) {
    action.PyStr? && action.s in {"store_true", "store_false", "count", "version"}
  }

  /** An argument (`Arg`, or `PosArg` when `positional` is set). `typ` is the
      attribute `type`, `metavarOpt` the explicit `_metavar`, `extra` the
      keyword arguments beyond the named ones. */
  class Arg {
    var dest: string
    var default: PyVal
    var typ: PyVal
    var nargs: PyVal
    var aliases: seq<string>
    var help: PyVal
    var metavarOpt: PyVal
    var action: PyVal
    var boolFlag: bool
    var oneDash: bool
    var extra: ParamMap
    const positional: bool

    /** `Arg(dest, default, type, nargs, aliases, help, metavar, action,
        bool_flag, one_dash, **kwargs)`. */
    constructor (dest: string, default: PyVal, typ: PyVal, nargs: PyVal, aliases: seq<string>,
                 help: PyVal, metavar: PyVal, action: PyVal, boolFlag: bool, oneDash: bool,
                 extra: ParamMap)
      ensures this.dest == dest && this.default == default && this.typ == typ
      ensures this.nargs == nargs && this.aliases == aliases && this.help == help
      ensures this.metavarOpt == metavar && this.action == action
      ensures this.boolFlag == boolFlag && this.oneDash == oneDash && this.extra == extra
      ensures !positional
    {
      this.dest := dest;
      this.default := default;
      this.typ := typ;
      this.nargs := nargs;
      this.aliases := aliases;
      this.help := help;
      this.metavarOpt := metavar;
      this.action := action;
      this.boolFlag := boolFlag;
      this.oneDash := oneDash;
      this.extra := extra;
      this.positional := false;
    }

    /** `PosArg(**kwargs)`: the same fields, with `bool_flag` forced off. */
    constructor Pos(dest: string, default: PyVal, typ: PyVal, nargs: PyVal, aliases: seq<string>,
                    help: PyVal, metavar: PyVal, action: PyVal, oneDash: bool, extra: ParamMap)
      ensures this.dest == dest && this.default == default && this.typ == typ
      ensures this.nargs == nargs && this.aliases == aliases && this.help == help
      ensures this.metavarOpt == metavar && this.action == action
      ensures !this.boolFlag && this.oneDash == oneDash && this.extra == extra
      ensures positional
    {
      this.dest := dest;
      this.default := default;
      this.typ := typ;
      this.nargs := nargs;
      this.aliases := aliases;
      this.help := help;
      this.metavarOpt := metavar;
      this.action := action;
      this.boolFlag := false;
      this.oneDash := oneDash;
      this.extra := extra;
      this.positional := true;
    }

    /** The property `metavar`: the explicit one when truthy; otherwise, for
        an `Arg`, the upper-cased first letter of `dest`, and None when
        `dest` is empty; a `PosArg` has only the explicit one. */
    function Metavar(): (r: PyVal)
      reads this
      ensures Truthy(metavarOpt) ==> r == metavarOpt
      ensures !Truthy(metavarOpt) && !positional && dest != [] ==> r == PyStr([Upper(dest[0])])
      ensures !Truthy(metavarOpt) && (positional || dest == []) ==> r == PyNone
      ensures r == PyNone || Truthy(r)
    {
      if Truthy(metavarOpt) then metavarOpt
      else if !positional && dest != [] then PyStr([Upper(dest[0])])
      else PyNone
    }

    /** The undashed names: `dest`, then the aliases. */
    function PlainNames(): (r: seq<string>)
      reads this
    {
      [dest] + aliases
    }

    /** `names(prefix)`, with the empty prefix standing for a falsy one: for
        an `Arg`, each of `dest` and the aliases, in order, with the prefix
        in front and then the dashes; for a `PosArg` just `[dest]`. */
    function Names(prefix: string): (r: seq<string>)
      reads this
      ensures positional ==> r == [dest]
      ensures !positional ==> |r| == 1 + |aliases|
      ensures !positional ==> forall i :: 0 <= i < |r| ==>
                var n := prefix + PlainNames()[i];
                r[i] == (if |n| == 1 || oneDash then "-" else "--") + n
    {
      if positional then [dest]
      else
        var plain, one := PlainNames(), oneDash;
        seq(|plain|, i requires 0 <= i < |plain| => Dashed(prefix + plain[i], one))
    }

    /** The dictionary `params` starts from: the named fields and the metavar. */
    function Own(): (r: ParamMap)
      reads this
    {
      map["dest" := PyStr(dest), "default" := default, "type" := typ, "nargs" := nargs,
          "help" := help, "metavar" := Metavar(), "action" := action]
    }

    /** The fields, overridden by the call's keyword arguments, overridden in
        turn by `extra`. */
    function Merged(kwargs: ParamMap): (r: ParamMap)
      reads this
    {
      Own() + kwargs + extra
    }

    /** The keys `params` pops: the requested ones, and `dest` for a `PosArg`. */
    function Excluded(exclude: seq<string>): seq<string>
      reads this
    {
      if positional then exclude + ["dest"] else exclude
    }

    /** What `params(exclude, **kwargs)` returns. */
    function ParamsSpec(exclude: seq<string>, kwargs: ParamMap): (r: Result<ParamMap>)
      reads this
      ensures r.Ok? ==> forall k :: k in r.value ==> r.value[k] != PyNone && k !in Excluded(exclude)
    {
      match PopAll(Merged(kwargs), Excluded(exclude))
      case Err(e) => Err(e)
      case Ok(m) => Ok(DropNone(m))
    }

    /** `params(exclude, **kwargs)`: build the dictionary, update it, pop the
        excluded keys one by one and drop the None values. */
    method Params(exclude: seq<string>, kwargs: ParamMap) returns (r: Result<ParamMap>)
      ensures r == ParamsSpec(exclude, kwargs)
    {
      var params := Own();
      params := params + kwargs;
      params := params + extra;
      var keys := Excluded(exclude);
      for i := 0 to |keys|
        invariant PopAll(params, keys[i..]) == PopAll(Merged(kwargs), keys)
      {
        assert keys[i..][1..] == keys[i + 1..];
        if keys[i] !in params {
          return Err(KeyError(keys[i]));
        }
        params := params - {keys[i]};
      }
      r := Ok(DropNone(params));
    }

    /** The calls `inject_bool(parser)` makes. With the flag style, a
        `store_true` option under the names, a `store_false` one under the
        `no-` names whose help is `ignore`, and the default for `dest`;
        otherwise one option read through `str2bool`. */
    function InjectBoolCalls(ignore: PyVal): (r: Result<seq<Call>>)
      reads this
      ensures r.Ok? ==> r.value != [] && r.value[0].AddArgument? && r.value[0].names == Names("")
      ensures r.Ok? ==> (|r.value| == 3 <==> boolFlag && nargs != PyStr("*") && nargs != PyStr("+"))
    {
      if boolFlag && nargs != PyStr("*") && nargs != PyStr("+") then
        match ParamsSpec(["type", "nargs", "metavar", "action"], map[])
        case Err(e) => Err(e)
        case Ok(p) => Ok(FlagCalls(Names(""), Names("no-"), p, ignore, dest, default))
      else
        match ParamsSpec([], map["type" := PyType(Str2BoolT)])
        case Err(e) => Err(e)
        case Ok(p) => Ok([AddArgument(Names(""), p)])
    }

    /** The calls `inject(parser)` makes: a boolean argument goes through
        `inject_bool`; any other is one `add_argument` with `type` dropped
        for the actions that take none, and `metavar` likewise. */
    function InjectCalls(ignore: PyVal): (r: Result<seq<Call>>)
      reads this
      ensures r.Ok? ==> r.value != [] && r.value[0].AddArgument? && r.value[0].names == Names("")
      ensures r.Ok? && typ != PyType(BoolT) ==> |r.value| == 1
    {
      if typ == PyType(BoolT) then InjectBoolCalls(ignore)
      else
        match ParamsSpec([], map[])
        case Err(e) => Err(e)
        case Ok(p) => Ok([AddArgument(Names(""), Prune(p))])
    }
  }

  /** The two options of a boolean flag and the default of its `dest`. */
  function FlagCalls(names: seq<string>, noNames: seq<string>, p: ParamMap, ignore: PyVal,
                     dest: string, default: PyVal): seq<Call>
  {
    [AddArgument(names, p["action" := PyStr("store_true")]),
     AddArgument(noNames, p["help" := ignore]["action" := PyStr("store_false")]),
     SetDefaults(dest, default)]
  }

  /** The pops `inject` makes before `add_argument`: `type` for the actions
      that take none, then `metavar` likewise. */
  function Prune(p: ParamMap): (r: ParamMap)
    ensures var act := if "action" in p then p["action"] else PyNone;
      forall k :: k in r <==>
        k in p && !(k == "type" && TypeFreeAction(act)) && !(k == "metavar" && MetavarFreeAction(act))
    ensures forall k :: k in r ==> r[k] == p[k]
  {
    var act := if "action" in p then p["action"] else PyNone;
    var p1 := if TypeFreeAction(act) && "type" in p then p - {"type"} else p;
    if MetavarFreeAction(act) && "metavar" in p1 then p1 - {"metavar"} else p1
  }

  // ---------------------------------------------------------------------------
  // Properties

  /** With a prefix, the prefix goes on before the dash rule is applied: the
      `no-` names of an `Arg` without `one_dash` are `--no-` and the name. */
  lemma NoNames(a: Arg)
    requires !a.positional && !a.oneDash
    ensures |a.Names("no-")| == |a.PlainNames()|
    ensures forall i :: 0 <= i < |a.PlainNames()| ==> a.Names("no-")[i] == "--no-" + a.PlainNames()[i]
  {
    forall i | 0 <= i < |a.PlainNames()|
      ensures a.Names("no-")[i] == "--no-" + a.PlainNames()[i]
    {
      var n := "no-" + a.PlainNames()[i];
      assert |n| >= 3;
      assert "--" + n == "--no-" + a.PlainNames()[i];
    }
  }

  /** `dest` comes first, and a one-letter name gets a single dash. */
  lemma NamesDestFirst(a: Arg)
    requires !a.positional
    ensures a.Names("")[0] == Dashed(a.dest, a.oneDash)
    ensures |a.dest| == 1 ==> a.Names("")[0] == "-" + a.dest
    ensures |a.dest| > 1 && !a.oneDash ==> a.Names("")[0] == "--" + a.dest
  {
    assert a.PlainNames()[0] == a.dest;
    assert "" + a.dest == a.dest;
  }

  /** `PosArg.names` ignores the prefix. */
  lemma PosNamesIgnorePrefix(a: Arg, prefix: string)
    requires a.positional
    ensures a.Names(prefix) == a.Names("") == [a.dest]
  {
  }

  /** What `params` returns: no None values, no excluded key, and for every
      other key the value of `extra`, else of the call's keyword arguments,
      else of the fields. */
  lemma {:induction false} ParamsMeaning(a: Arg, exclude: seq<string>, kwargs: ParamMap)
    requires a.ParamsSpec(exclude, kwargs).Ok?
    ensures var p := a.ParamsSpec(exclude, kwargs).value;
      (forall k :: k in p ==> p[k] != PyNone) &&
      (forall k :: k in exclude ==> k !in p) &&
      (forall k :: k in p ==> p[k] == (if k in a.extra then a.extra[k]
                                      else if k in kwargs then kwargs[k]
                                      else a.Own()[k])) &&
      (forall k :: k in a.Merged(kwargs) && k !in a.Excluded(exclude) && a.Merged(kwargs)[k] != PyNone ==> k in p)
  {
    var m := PopAll(a.Merged(kwargs), a.Excluded(exclude)).value;
    assert forall k :: k in exclude ==> k in a.Excluded(exclude);
    assert m == a.Merged(kwargs) - set k | k in a.Excluded(exclude);
  }

  /** `params` fails exactly when an excluded key is missing or repeated. */
  lemma ParamsFails(a: Arg, exclude: seq<string>, kwargs: ParamMap)
    ensures a.ParamsSpec(exclude, kwargs).Err? <==>
      (exists i :: 0 <= i < |a.Excluded(exclude)| && a.Excluded(exclude)[i] !in a.Merged(kwargs)) ||
      (exists i, j :: 0 <= i < j < |a.Excluded(exclude)| && a.Excluded(exclude)[i] == a.Excluded(exclude)[j])
  {
  }

  /** `PosArg.params` never passes `dest` on. */
  lemma PosParamsNoDest(a: Arg, exclude: seq<string>, kwargs: ParamMap)
    requires a.positional && a.ParamsSpec(exclude, kwargs).Ok?
    ensures "dest" !in a.ParamsSpec(exclude, kwargs).value
  {
    var keys := a.Excluded(exclude);
    assert keys[|keys| - 1] == "dest";
    assert "dest" in set k | k in keys;
  }

  /** Every field is a key of the dictionary `params` starts from. */
  lemma OwnKeys(a: Arg)
    ensures a.Own().Keys == {"dest", "default", "type", "nargs", "help", "metavar", "action"}
  {
  }

  /** Popping distinct fields other than `dest` always succeeds. */
  lemma ParamsOk(a: Arg, exclude: seq<string>, kwargs: ParamMap)
    requires forall i :: 0 <= i < |exclude| ==> exclude[i] in {"default", "type", "nargs", "help", "metavar", "action"}
    requires forall i, j :: 0 <= i < j < |exclude| ==> exclude[i] != exclude[j]
    ensures a.ParamsSpec(exclude, kwargs).Ok?
  {
    OwnKeys(a);
    var keys := a.Excluded(exclude);
    assert forall i :: 0 <= i < |keys| ==> keys[i] in a.Own() && keys[i] in a.Merged(kwargs);
  }

  /** The pops `inject` and `inject_bool` ask for always succeed. */
  lemma InjectOk(a: Arg, ignore: PyVal)
    ensures a.InjectCalls(ignore).Ok?
  {
    if a.typ != PyType(BoolT) {
      ParamsOk(a, [], map[]);
    } else if a.boolFlag && a.nargs != PyStr("*") && a.nargs != PyStr("+") {
      FlagParamsOk(a);
    } else {
      ParamsOk(a, [], map["type" := PyType(Str2BoolT)]);
    }
  }

  /** The pops of the flag style of `inject_bool` succeed. */
  lemma FlagParamsOk(a: Arg)
    ensures a.ParamsSpec(["type", "nargs", "metavar", "action"], map[]).Ok?
  {
    var ex := ["type", "nargs", "metavar", "action"];
    assert ex[0] == "type" && ex[1] == "nargs" && ex[2] == "metavar" && ex[3] == "action";
    ParamsOk(a, ex, map[]);
  }

  /** `inject` on a non-boolean argument: one `add_argument` under the
      names; `type` only where the action takes one, `metavar` likewise,
      and every other parameter as `params` gave it. */
  lemma InjectPrunes(a: Arg, ignore: PyVal)
    requires a.typ != PyType(BoolT) && a.InjectCalls(ignore).Ok?
    ensures var calls := a.InjectCalls(ignore).value;
      var p := a.ParamsSpec([], map[]).value;
      var act := if "action" in p then p["action"] else PyNone;
      |calls| == 1 && calls[0].AddArgument? && calls[0].names == a.Names("") &&
      (TypeFreeAction(act) ==> "type" !in calls[0].params) &&
      (MetavarFreeAction(act) ==> "metavar" !in calls[0].params) &&
      (forall k :: k in calls[0].params <==>
         k in p && !(k == "type" && TypeFreeAction(act)) && !(k == "metavar" && MetavarFreeAction(act))) &&
      (forall k :: k in calls[0].params ==> calls[0].params[k] == p[k])
  {
  }

  /** `inject` on a boolean flag: `store_true` under the names, then
      `store_false` under the `no-` names with the help replaced, then the
      default; neither call carries `type`, `nargs` or `metavar`. */
  lemma InjectBoolFlag(a: Arg, ignore: PyVal)
    requires a.typ == PyType(BoolT) && a.boolFlag && a.nargs != PyStr("*") && a.nargs != PyStr("+")
    ensures a.InjectCalls(ignore).Ok?
    ensures var calls := a.InjectCalls(ignore).value;
      |calls| == 3 &&
      calls[0] == AddArgument(a.Names(""), calls[0].params) &&
      calls[1] == AddArgument(a.Names("no-"), calls[1].params) &&
      calls[2] == SetDefaults(a.dest, a.default) &&
      FlagPair(calls[0].params, calls[1].params, ignore)
  {
    var ex := ["type", "nargs", "metavar", "action"];
    FlagParamsOk(a);
    var p := a.ParamsSpec(ex, map[]).value;
    assert "type" !in p && "nargs" !in p && "metavar" !in p by {
      ParamsMeaning(a, ex, map[]);
      assert "type" in ex && "nargs" in ex && "metavar" in ex;
    }
    FlagCallsShape(a.Names(""), a.Names("no-"), p, ignore, a.dest, a.default);
  }

  /** The parameters of the `store_true` and `store_false` options of a
      flag: the actions, the replaced help, the same values otherwise, and
      no `type`, `nargs` or `metavar`. */
  predicate FlagPair(yes: ParamMap, no: ParamMap, ignore: PyVal) {
    "action" in yes && yes["action"] == PyStr("store_true") &&
    "action" in no && no["action"] == PyStr("store_false") &&
    "help" in no && no["help"] == ignore &&
    (forall k :: k in yes && k != "action" ==> k in no) &&
    (forall k :: k in yes && k != "action" && k != "help" ==> no[k] == yes[k]) &&
    (forall k :: k in {"type", "nargs", "metavar"} ==> k !in yes && k !in no)
  }

  lemma FlagCallsShape(names: seq<string>, noNames: seq<string>, p: ParamMap, ignore: PyVal,
                       dest: string, default: PyVal)
    requires "type" !in p && "nargs" !in p && "metavar" !in p
    ensures var calls := FlagCalls(names, noNames, p, ignore, dest, default);
      |calls| == 3 &&
      calls[0] == AddArgument(names, calls[0].params) &&
      calls[1] == AddArgument(noNames, calls[1].params) &&
      calls[2] == SetDefaults(dest, default) &&
      FlagPair(calls[0].params, calls[1].params, ignore)
  {
  }

  /** `inject` on a boolean argument otherwise: one option converted by
      `str2bool`, unless `extra` names another `type`. */
  lemma InjectBoolValue(a: Arg, ignore: PyVal)
    requires a.typ == PyType(BoolT) && !(a.boolFlag && a.nargs != PyStr("*") && a.nargs != PyStr("+"))
    requires "type" !in a.extra
    ensures a.InjectCalls(ignore).Ok?
    ensures var calls := a.InjectCalls(ignore).value;
      |calls| == 1 && calls[0].AddArgument? && calls[0].names == a.Names("") &&
      "type" in calls[0].params && calls[0].params["type"] == PyType(Str2BoolT)
  {
    InjectOk(a, ignore);
    ParamsMeaning(a, [], map["type" := PyType(Str2BoolT)]);
    assert a.Excluded([]) == if a.positional then ["dest"] else [];
    assert "type" in a.Merged(map["type" := PyType(Str2BoolT)]);
  }
}
