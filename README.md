# argser core in Dafny

argser builds an `argparse` command line from a plain Python class. Each
annotated or defaulted class attribute becomes an option, and a nested
class marked as a sub-command becomes a sub-parser. After parsing, argser
prints the resulting object as a colored table. This project models the
parts of argser that decide what the command line looks like and how the
result is displayed.

- `py.dfy` (module `Py`) holds the Python built-ins the core relies on, as
  plain definitions:
  - values and types (`PyVal`, `Ty`), truthiness and `type(x)`;
  - `int(s)` and `str(i)`, `math.ceil` of a quotient;
  - `str.split`, `str.splitlines`, `str.join`, ASCII `lower`/`upper`;
  - the `re.match(prefix + '(.+)')` that routes prefixed keys.
- `utils.dfy` (module `Utils`) models `argser/utils.py`:
  - `vlen`, the visible width after ANSI color codes are removed;
  - `add_color` and the `colors` palette;
  - `str2bool`.
- `display.dfy` (module `Display`) models `argser/display.py`:
  - flattening an argument object into `(key, value)` rows;
  - `stringify`;
  - choosing the number of columns and splitting rows into chunks, either
    evenly or per sub-command;
  - merging rendered tables side by side;
  - colorizing in place;
  - `make_table`.
- `fields.dfy` (module `Fields`) models `argser/fields.py`:
  - the `Arg` class and its positional variant `PosArg`;
  - the option strings and the metavar;
  - the keyword arguments given to `add_argument`;
  - the calls `inject` makes on a parser.
- `parser.dfy` (module `Parser`) models the helpers of `argser/parser.py`:
  - shortcut names and how they are assigned to options in place, per
    sub-command level;
  - copying prefixed keys into a target dictionary;
  - the `nargs` mode of a type;
  - collecting annotations and fields across a class hierarchy;
  - choosing an option's type.

Code that changes state in place is modelled imperatively:
- the `Arg` objects whose `aliases` receive shortcuts;
- the target dictionary of `_add_prefixed_key`;
- the row list `_colorize` rewrites;
- the `kwargs` dictionary `make_table` updates.

Each such method is proved against a specification function. The
properties argser promises are proved as lemmas about those functions.
Pure helpers are functions.

Python's ordered `dict`s whose order matters are modelled as sequences of
`(key, value)` pairs (`Parser.Entries`), with first-occurrence lookup.
These are the class `__dict__` and annotation dictionaries and the field
dictionaries built from them.

## Model

| member | source | states |
|---|---|---|
| Py.CeilDiv | argser/display.py:59 | `math.ceil(n / d)`: the least multiple of a positive `d` at or above `n` |
| Py.ParseInt | argser/display.py:61 | `int(s)` on ASCII text: succeeds only on text that is not blank once surrounding whitespace is trimmed; an optional sign, then digits with single `_` between digit groups; anything else raises ValueError |
| Py.ParseIntToString | argser/display.py:61 | `int(str(i)) == i` for every integer, so a numeric `cols` text reads back as its number |
| Py.SplitLines | argser/display.py:39 | `splitlines` yields no lines exactly for the empty text, and no line longer than the text |
| Py.MatchPrefixRest | argser/parser.py:216 | `re.match(prefix + '(.+)')` matches only texts that start with the prefix and continue with a character other than newline; the group runs up to the first newline |
| Utils.Alt1 | argser/utils.py:9 | the first alternative of `RE_INV_CODES` matches `ESC [` digits, then digits or `;`, then `m` |
| Utils.Alt2 | argser/utils.py:9 | the second alternative matches `ESC [`, three `;`-separated digit runs, then `m` |
| Utils.CodeLen | argser/utils.py:9 | a color code found at the front of a text starts with `ESC [` and ends with `m` |
| Utils.Strip | argser/utils.py:22 | removing the color codes never lengthens a text |
| Utils.VisibleLen | argser/utils.py:12-22 | `vlen` is at most the length |
| Utils.StripNoEsc | argser/utils.py:22 | a text without ESC is unchanged by code removal |
| Utils.VisibleLenNoEsc | argser/utils.py:12-22 | `vlen` of a text without ESC is its length |
| Utils.VisibleLenExample | argser/utils.py:17-18 | `vlen("world") == 5` |
| Utils.VisibleColoredExample | argser/utils.py:19-20 | `vlen('\x1b[31mhello\x1b[0m') == 5` |
| Utils.StripConcat | argser/utils.py:22 | after a text whose codes are complete, code removal distributes over concatenation |
| Utils.VisibleLenConcat | argser/utils.py:12-22 | `vlen(a + b) == vlen(a) + vlen(b)` when `a`'s codes are complete |
| Utils.StripJoin | argser/utils.py:22 | code removal distributes over `sep.join(parts)` |
| Utils.AddColor | argser/utils.py:41-53 | no color leaves the text as it is; with a color the result is as long as the text (one space when empty) plus the open code `ESC[{30+fg}m` and the 4-character reset code; the exact wrapping is the definition, pinned down by `Utils.AddColorExample` and `Utils.RedHello` |
| Utils.StripAddColor | argser/utils.py:41-53 | the visible part of a colored text is the text, or one space for the empty text |
| Utils.VisibleAddColor | argser/utils.py:41-53 | a colored text is as wide as the text, or 1 for the empty text |
| Utils.AddColorExample | argser/utils.py:47 | `add_color('text', 1) == '\x1b[31mtext\x1b[0m'` |
| Utils.RedHello | argser/utils.py:56-57 | `colors.red('hello')` is `hello` in code 31 |
| Utils.Str2Bool | argser/utils.py:25-32 | True exactly when the lower-cased text is a true value; False exactly when it is a false value and not a true value; ArgumentTypeError otherwise |
| Utils.Str2BoolIgnoresCase | argser/utils.py:27 | two texts equal up to ASCII case convert alike |
| Utils.Str2BoolUpper | argser/utils.py:27 | upper-casing the text does not change the result |
| Display.Flatten | argser/display.py:27-35 | definition of `_get_table`'s rows: plain attributes in order, a sub-command attribute replaced by its own rows under `key__`; characterised by `Display.FlattenLeaves` and `Display.FlattenPlain` |
| Display.GetTable | argser/display.py:27-35 | the loop and recursion build exactly the flattened rows |
| Display.Prefixed | argser/display.py:32 | a sub-command's rows keep their values, and each key becomes `key__k` |
| Display.FlattenLeaves | argser/display.py:27-35 | each row is a path to a plain value whose key is the path joined by `__`, in attribute order |
| Display.FlattenPlain | argser/display.py:33-34 | without sub-commands the rows are the attributes themselves, in order |
| Display.FlattenExample | argser/display.py:27-35 | `A(a=1, sub=B(b=None))` flattens to `[("a", 1), ("sub__b", None)]` |
| Display.ValueText | argser/display.py:12-20 | definition of the value half of a pair: None is red `-`; a plain value is its `repr`, or the `repr` of its `str` shortened to 20 when `shorten` is set; a sub-command value is its own `stringify` text, since `sub_command` makes `stringify` its `__str__` and `__repr__` (argser/parser.py:207-208); properties in `Display.StripValue` |
| Display.Stringify | argser/display.py:11-24 | definition of `stringify`: yellow class name, then the pairs joined by `, ` in parentheses; properties in `Display.StripStringify`, `Display.StringifyNone` and `Display.StringifyNested` |
| Display.Pairs | argser/display.py:12-22 | one `green(key)=value` pair per attribute, in order |
| Display.StripValue | argser/display.py:14-19 | a value text without stray ESC reads, with its codes removed, as its plain form (`-` for None, the nested plain `Name(k=v)` for a sub-command), and its codes are complete |
| Display.StripStringify | argser/display.py:11-24 | with the colors removed, `stringify` is the plain `Name(k=v, ...)` text, nested sub-commands shown the same way inline, its width is that text's length, and every color code it opens is closed |
| Display.StringifySingle | argser/display.py:11-24 | an object with one attribute shows as the yellow name, then the green key, `=` and the value text in parentheses |
| Display.StringifyNone | argser/display.py:14-15 | a None attribute is shown as a red `-` |
| Display.StringifyNested | argser/display.py:19 | a sub-command attribute shows inline as its own coloured `Name(k=v)` text |
| Display.ColsValue | argser/display.py:57-64 | a text other than `auto` is parsed by `int` (the error path included); a falsy non-text gives 1; any other value is returned as is |
| Display.ColsAuto | argser/display.py:58-59 | `auto` gives the least column count that fits 9 rows per column, and 0 only for no rows |
| Display.ColsText | argser/display.py:60-61 | the decimal text of a number gives that number |
| Display.ColsFalsy | argser/display.py:62-63 | a falsy non-text gives one column |
| Display.PartSize | argser/display.py:70 | a positive column count gives the least part size that fits the rows; a zero count raises ZeroDivisionError |
| Display.SplitByColsSpec | argser/display.py:67-74 | definition of `_split_by_cols`: the column value, then the part size, then the chunks of that size, or the error of either step; properties in `Display.SplitByColsPositive`, `Display.SplitByColsBad` and `Display.SplitByColsRows` |
| Display.SplitByCols | argser/display.py:67-74 | the loop computes the specification's split |
| Display.SplitByColsPositive | argser/display.py:67-74 | with a positive column count the parts are non-empty, all but the last hold exactly the part size, they concatenate back to the rows, and there are no more parts than columns |
| Display.SplitByColsBad | argser/display.py:70-73 | zero columns raise ZeroDivisionError; a negative count never ends on rows, and gives no parts for no rows |
| Display.ChunksConcat | argser/display.py:71-73 | the chunks concatenate back to the data |
| Display.ChunksSizes | argser/display.py:72 | chunks are non-empty, at most the part size, and all but the last are full |
| Display.ChunksLength | argser/display.py:71-73 | the number of chunks is the ceiling of rows over part size |
| Display.ChunksFrom | argser/display.py:72 | every row of a chunk is a row of the data |
| Display.SplitByColsRows | argser/display.py:67-74 | a successful split is non-empty parts of the data's own rows that concatenate back to it |
| Display.GroupOf | argser/display.py:80-81 | the group of a key is its longest prefix that is followed by `__` and one more character; keys without one have no group |
| Display.GroupOfSub | argser/display.py:80 | `sub__x` is in group `sub` |
| Display.GroupOfNested | argser/display.py:80 | `a__b__c` is in group `a__b`, since the match is greedy |
| Display.GroupOfPlain | argser/display.py:81 | `a` and `__x` have no group |
| Display.GroupRows | argser/display.py:78-81 | the grouping loop yields the groups in first-seen order, and each group holds its rows in order |
| Display.GroupOrderDistinct | argser/display.py:78-81 | each group appears once in the order |
| Display.GroupOrderCovers | argser/display.py:78-81 | every row's group appears in the order |
| Display.GroupedPermutes | argser/display.py:78-84 | the rows regrouped by group form a permutation of the rows |
| Display.SplitBySubSpec | argser/display.py:77-85 | definition of `_split_by_sub`: the rows of each group, groups in first-seen order, each split by the column value; properties in `Display.SplitBySubRows` and `Display.SplitBySubOk` |
| Display.SplitBySub | argser/display.py:77-85 | the method computes the specification's split |
| Display.SplitBySubRows | argser/display.py:77-85 | the parts hold every row once, and each part is non-empty and within one group |
| Display.SplitGroupsRows | argser/display.py:82-85 | the parts concatenate to the rows grouped in first-seen order |
| Display.SplitBySubOk | argser/display.py:77-85 | with `auto` or a positive column count the split cannot fail |
| Display.SplitGroupsOk | argser/display.py:83-84 | splitting each known group with `auto` or a positive count cannot fail |
| Display.MembersInGroup | argser/display.py:81 | a group's list holds only rows of that group |
| Display.MergeLines | argser/display.py:38-54 | merging succeeds exactly when there is a column and no column is empty text, where `max` of an empty sequence would raise |
| Display.MergeStrColsSpec | argser/display.py:38-54 | definition of `_merge_str_cols`: the merged lines joined by newlines, or the error of `max()` on an empty sequence; properties in `Display.MergeLinesCount`, `Display.MergeLinesWidth` and `Display.MergeLinesShape` |
| Display.MergeStrCols | argser/display.py:38-54 | the nested loops compute the specification's merged text |
| Display.MergeRow | argser/display.py:45-52 | one output line is each column's padded cell, with `gap` between columns and not after the last |
| Display.MergeLinesCount | argser/display.py:44 | there are as many lines as the tallest column has |
| Display.MergeLinesWidth | argser/display.py:41-53 | every merged line has the same visible width: the sum of the column widths plus the gaps |
| Display.CellWidth | argser/display.py:49-50 | a padded cell is exactly as wide as its column, whatever its colors |
| Display.RowWidth | argser/display.py:47-52 | a row is as wide as the sum of its cells plus one gap between each two |
| Display.MergeLinesShape | argser/display.py:44-53 | line `i` is built from the `i`-th line of each column |
| Display.MergeCell | argser/display.py:49-50 | a cell is the column's `i`-th line, or empty, padded with spaces to the column's visible width |
| Display.MergeExample | argser/display.py:38-54 | `["ab\nc", "d"]` with gap ` \| ` merges to `ab \| d` over `c  \|  ` |
| Display.Kwargs.constructor | argser/display.py:99 | the keyword dictionary starts with the given headers and table format |
| Display.ColorRow | argser/display.py:91-96 | one row as `_colorize` rewrites it: green key, and a text value, red `-` for None and `str` otherwise; properties in `Display.ColorRowVisible` |
| Display.ColorRows | argser/display.py:91-96 | every row is rewritten, in order |
| Display.HeaderPair | argser/display.py:89-90 | the headers unpack only when there are exactly two of them, and each is then colored yellow |
| Display.Colorize | argser/display.py:88-96 | on a bad header count it raises and changes nothing; otherwise the headers become the yellow pair and every row becomes its colored version |
| Display.ColorRowVisible | argser/display.py:91-96 | a colored key shows as the key, and a None value shows as `-` |
| Display.WrapText | argser/display.py:108-112 | definition of one value's wrapping: shortened to 40 with `shorten`, otherwise shortened to 400 and filled to width 40 |
| Display.WrapRows | argser/display.py:107-113 | every value is shortened, or shortened and filled, with its key kept |
| Display.WrapValues | argser/display.py:107-113 | the loop rewrites every row as the specification says |
| Display.ApplyPreset | argser/display.py:115-118 | the `fancy` preset sets `sub-auto`, the gap ` ~ ` and `fancy_grid`; any other preset changes nothing |
| Display.SubCount | argser/display.py:121-122 | a `sub-` text gives the count after the dash, else 1 |
| Display.RenderSpec | argser/display.py:120-128 | definition of the rendering step: split the rows (per sub-command on a `sub` text, evenly otherwise), tabulate each part, merge the tables side by side; properties in `Display.RenderEmpty` and `Display.RenderOk` |
| Display.Render | argser/display.py:120-128 | the method renders exactly as the specification says |
| Display.PrepareRows | argser/display.py:101-113 | headers default to `arg`/`value`; with a pair the rows are flattened, colored and wrapped, otherwise the header error |
| Display.MakeTableSpec | argser/display.py:99-128 | definition of `make_table`'s result: headers defaulted and checked, rows flattened, coloured and wrapped, the preset applied, then rendered; properties in `Display.MakeTableFancy`, `Display.MakeTableHeaders`, `Display.MakeTableEmpty` and `Display.MakeTableOk` |
| Display.MakeTable | argser/display.py:99-128 | `make_table` returns exactly the specification's text or error, and only the keyword dictionary changes |
| Display.MakeTableFancy | argser/display.py:115-118 | `fancy` behaves as `cols='sub-auto'`, `gap=' ~ '` and `tablefmt='fancy_grid'` |
| Display.MakeTableHeaders | argser/display.py:89 | headers that are not a pair make `make_table` fail |
| Display.MakeTableEmpty | argser/display.py:41 | an object with no attributes makes `make_table` fail |
| Display.MakeTableOk | argser/display.py:99-125 | with a header pair, at least one row and `sub-auto`, `make_table` succeeds |
| Display.RenderEmpty | argser/display.py:120-128 | rendering no rows fails |
| Display.RenderOk | argser/display.py:120-125 | rendering some rows with `sub-auto` succeeds |
| Fields.PopAll | argser/fields.py:88-89 | popping each excluded key succeeds exactly when all are present and none repeats, and removes exactly those keys; otherwise KeyError for one of them |
| Fields.DropNone | argser/fields.py:90 | exactly the entries whose value is not None are kept, unchanged |
| Fields.Arg.constructor | argser/fields.py:10-49 | an `Arg` stores every given attribute and is not positional |
| Fields.Arg.Pos | argser/fields.py:119-121 | a `PosArg` stores every given attribute, with `bool_flag` off, and is positional |
| Fields.Arg.Metavar | argser/fields.py:59-64 | a truthy explicit metavar wins; otherwise an `Arg` uses the upper-cased first letter of `dest`, and None for an empty `dest` |
| Fields.Arg.Names | argser/fields.py:66-74 | one option string per name, `dest` then the aliases, prefixed, with one dash for one-letter names or `one_dash` and two otherwise; a `PosArg` has only `dest` |
| Fields.Arg.ParamsSpec | argser/fields.py:76-90 | a successful result holds no None value and no popped key; characterised fully by `Fields.ParamsMeaning` and `Fields.ParamsFails` |
| Fields.Arg.Params | argser/fields.py:76-90 | the method computes the specification's keyword arguments |
| Fields.NoNames | argser/fields.py:66-74 | the `no-` names are `--no-` and each name |
| Fields.NamesDestFirst | argser/fields.py:67 | the first option string is the dashed `dest` |
| Fields.PosNamesIgnorePrefix | argser/fields.py:132-133 | a `PosArg` ignores the prefix |
| Fields.ParamsMeaning | argser/fields.py:76-90 | no None value; no excluded key; each value is from `extra`, else from the keyword arguments, else the attribute; every other non-None key is present |
| Fields.ParamsFails | argser/fields.py:88-89 | `params` raises exactly when an excluded key is missing or repeated |
| Fields.PosParamsNoDest | argser/fields.py:128-130 | a `PosArg`'s keyword arguments never hold `dest` |
| Fields.ParamsOk | argser/fields.py:76-90 | excluding distinct attribute names never fails |
| Fields.OwnKeys | argser/fields.py:77-85 | the attribute keyword arguments are `dest`, `default`, `type`, `nargs`, `help`, `metavar` and `action` |
| Fields.FlagParamsOk | argser/fields.py:94 | excluding `type`, `nargs`, `metavar` and `action` for a flag never fails |
| Fields.InjectOk | argser/fields.py:103-114 | `inject` never fails |
| Fields.Arg.InjectCalls | argser/fields.py:103-114 | the first call is an `add_argument` under the plain names, and a non-bool argument makes exactly one call |
| Fields.Arg.InjectBoolCalls | argser/fields.py:92-101 | the first call is an `add_argument` under the plain names, and there are three calls exactly in the flag style |
| Fields.Prune | argser/fields.py:107-113 | `type` is removed exactly for the type-free actions and `metavar` exactly for the metavar-free ones; everything else is kept unchanged |
| Fields.FlagCalls | argser/fields.py:95-98 | definition of the flag style's three calls; properties in `Fields.FlagCallsShape` |
| Fields.InjectPrunes | argser/fields.py:104-114 | a non-bool argument makes one `add_argument` call with its names; `type` and `metavar` are dropped exactly for the listed actions |
| Fields.InjectBoolFlag | argser/fields.py:92-98 | a bool flag makes a store-true call, a store-false `no-` call with hidden help, and a `set_defaults` call |
| Fields.FlagCallsShape | argser/fields.py:94-98 | the three flag calls share everything except the action and the help |
| Fields.InjectBoolValue | argser/fields.py:99-101 | a bool that is not a flag takes a value read by `str2bool` |
| Parser.MakeShortcut | argser/parser.py:161-164 | definition of `_make_shortcut`: the first letter of each non-empty `_`-separated part; properties in `Parser.ShortcutWord`, `Parser.ShortcutJoin` and `Parser.ShortcutExamples` |
| Parser.Initials | argser/parser.py:164 | the shortcut has at most one letter per part |
| Parser.InitialsConcat | argser/parser.py:164 | initials distribute over concatenation of parts |
| Parser.ShortcutWord | argser/parser.py:161-164 | a word without `_` gives its first letter, and nothing when empty |
| Parser.ShortcutJoin | argser/parser.py:161-164 | the shortcut of `a_b` is the shortcut of `a` followed by that of `b` |
| Parser.ShortcutExamples | argser/parser.py:162 | `aaa` gives `a`, `aaa_bbb` gives `ab` |
| Parser.SplitAtUnderscore | argser/parser.py:163 | `split('_')` of `a + '_' + b` is the split of `a` followed by the split of `b` |
| Parser.NamesOf | argser/parser.py:172-175 | the first loop marks exactly the names and aliases of all arguments |
| Parser.Assign | argser/parser.py:176-183 | the second loop plans one alias list per argument, and only adds to the used names |
| Parser.Shortcuts | argser/parser.py:167-183 | one planned alias list per argument |
| Parser.AssignPrefix | argser/parser.py:176-183 | the plan for a prefix extends the plan for the shorter prefix by this argument's outcome |
| Parser.AssignStable | argser/parser.py:176-183 | later arguments never change an earlier argument's outcome |
| Parser.AssignUsed | argser/parser.py:180-182 | a name is used exactly when it was marked, or an earlier argument took it as its shortcut |
| Parser.ShortcutOutcome | argser/parser.py:176-183 | an argument with aliases keeps them; one without gets its shortcut exactly when no name and no earlier shortcut holds it, and otherwise keeps none |
| Parser.ShortcutsDistinct | argser/parser.py:180-183 | two assigned shortcuts differ, and none clashes with an existing name |
| Parser.Items | argser/parser.py:174 | one `(dest, aliases)` pair per argument |
| Parser.Visit | argser/parser.py:177-183 | one step of the loop: the argument gets its shortcut when it has no aliases and the shortcut is free, and the shortcut is then marked |
| Parser.CollectNames | argser/parser.py:172-175 | the first loop yields exactly the names of all arguments |
| Parser.MakeShortcuts | argser/parser.py:167-183 | each argument's aliases become the planned aliases for the names they started with |
| Parser.Objs | argser/parser.py:186-189 | every argument of a level and of the levels below |
| Parser.Levels | argser/parser.py:186-189 | every argument list of a level and below, whose members are among the level's arguments |
| Parser.MakeShortcutsSubWise | argser/parser.py:186-189 | at each level, the aliases become that level's plan, made from its own names alone |
| Parser.PlanHere | argser/parser.py:187 | the level's own arguments are planned, and no argument below changes |
| Parser.PlanLevel | argser/parser.py:188-189 | one sub-level is planned, and its siblings and the level's own arguments are left as they were |
| Parser.SingleLevel | argser/parser.py:186-189 | an argument alone at its level gets its shortcut |
| Parser.SubWiseExample | argser/parser.py:186-189 | `alpha` and `apple` at different levels both get `a` |
| Parser.OneLevelExample | argser/parser.py:176-183 | `alpha` and `apple` at one level: only the first gets `a` |
| Parser.Dict.constructor | argser/parser.py:214 | the target dictionary starts with the given entries |
| Parser.AddPrefixedKey | argser/parser.py:214-218 | the target becomes its old entries overwritten by the routed source entries |
| Parser.Routed | argser/parser.py:215-218 | definition of the writes `_add_prefixed_key` makes, source order, later writes winning; characterised by `Parser.RoutedKeys` and `Parser.RoutedLast` |
| Parser.RoutedKeys | argser/parser.py:215-218 | a key is routed exactly when some source key is the prefix followed by it |
| Parser.RoutedLast | argser/parser.py:215-218 | a routed key holds the value of the last source entry that routes to it |
| Parser.PrefixRoute | argser/parser.py:216 | `prefix + rest` routes to `rest` when `rest` is non-empty and has no newline; the prefix alone does not match |
| Parser.RoutedExample | argser/parser.py:214-218 | with `tabulate_`, the key `tabulate_tablefmt` gives `tablefmt` and `gap` is ignored |
| Parser.LenOrEmpty | argser/parser.py:20 | `len(default or [])` is 0 for a falsy default and the length of a text, list or tuple; any other truthy value raises TypeError |
| Parser.GetNargs | argser/parser.py:17-36 | fails exactly for a list type whose default has no length; gives a `nargs` exactly for list types, and `*` exactly for an empty or falsy default |
| Parser.GetNargsList | argser/parser.py:19-26 | for `list`, an empty default gives `str` with `*`, a non-empty list gives its first element's type with `+`, and a value without length raises |
| Parser.GetNargsTyped | argser/parser.py:28-34 | for `List[T]`, the element type when it is a class and `str` otherwise; `*` exactly for an empty default, `+` otherwise |
| Parser.GetNargsOther | argser/parser.py:35-36 | any other type is kept, with no `nargs` |
| Parser.Lookup | argser/parser.py:51 | a key is found exactly when present, with a value it is paired with |
| Parser.MergeAbsent | argser/parser.py:48-52 | merging keeps the keys of both, keeps distinct keys distinct, and takes entries only from the two |
| Parser.MergeLookup | argser/parser.py:51-52 | after a merge a key present before keeps its value, and any other key takes the value from the merged-in entries |
| Parser.MergeAllKeep | argser/parser.py:48-52 | a key present from the start is never overwritten by a base |
| Parser.MergeAllFirst | argser/parser.py:48-52 | an absent key takes its value from the first base that has it |
| Parser.MergeAllAbsent | argser/parser.py:48-52 | a key no base has stays absent |
| Parser.MergeAllFrom | argser/parser.py:48-52 | every merged entry comes from the start or from a base |
| Parser.AddMissing | argser/parser.py:49-52 | the loop adds the missing entries exactly as the merge specification says |
| Parser.Annotations | argser/parser.py:66-73 | definition of `_collect_annotations`: own annotations, then each base's collected annotations for names still missing; properties in `Parser.AnnotationsLookup` and `Parser.AnnotationsDistinct` |
| Parser.CollectAnnotations | argser/parser.py:66-73 | the recursion and loops compute the annotation specification |
| Parser.AnnotationsLookup | argser/parser.py:66-73 | a class's own annotation wins; otherwise the first base whose annotations have the name decides |
| Parser.AnnotationsDistinct | argser/parser.py:66-73 | the collected annotations name each field once |
| Parser.OwnFields | argser/parser.py:42-46 | the own fields are members that are neither dunder names nor classes, and keep distinct names distinct |
| Parser.OwnLookup | argser/parser.py:42-46 | an own member that is not skipped is found with its value |
| Parser.Placeholders | argser/parser.py:41 | exactly the annotated names the class does not set get None |
| Parser.FieldsOf | argser/parser.py:39-53 | definition of `_get_fields`: None placeholders, then own fields, then each base's fields for names still missing; properties in `Parser.FieldsOwnValue`, `Parser.FieldsAnnotatedOnly`, `Parser.FieldsInherited`, `Parser.FieldsClean` and `Parser.FieldsDistinct` |
| Parser.GetFields | argser/parser.py:39-53 | the recursion and loops compute the field specification |
| Parser.FieldsOwnValue | argser/parser.py:42-46 | a field the class sets keeps its own value |
| Parser.FieldsAnnotatedOnly | argser/parser.py:41 | an annotated name the class does not set is None, whatever a base holds |
| Parser.FieldsInherited | argser/parser.py:48-52 | a name neither annotated nor set by the class takes the value from the first base that has it |
| Parser.FieldsClean | argser/parser.py:39-53 | every field is a skipped-free member value or a None placeholder for an annotated name |
| Parser.FieldsDistinct | argser/parser.py:39-53 | each field name appears once |
| Parser.InheritedDefaultLost | argser/parser.py:39-53 | for `class A: a: int = 1` and `class B(A): pass`, the fields of `B` are `a = None` |
| Parser.FixedFieldsOf | argser/parser.py:39-53 | corrected fields name exactly the annotated names and the names given a value somewhere in the hierarchy |
| Parser.FixedFieldsLookup | argser/parser.py:39-53 | corrected fields: a value from the class or its bases wins, and otherwise an annotated name is None |
| Parser.FixedFieldsOwn | argser/parser.py:42-46 | corrected fields keep a value the class sets |
| Parser.FixedFieldsInherited | argser/parser.py:48-52 | corrected fields keep an inherited value the class does not set, annotated or not |
| Parser.InheritedDefaultKept | argser/parser.py:39-53 | corrected fields of `B` are `a = 1` |
| Parser.GetTypeAndNargs | argser/parser.py:56-63 | no type exactly for an unannotated field with a None default, and then no `nargs`; an error only from a truthy list default without length |
| Parser.TypeAndNargsCases | argser/parser.py:56-63 | the annotation wins; otherwise a None default gives no type, a scalar default its type, a non-empty list its first element's type with `+`, and an empty list `str` with `*` |

## Left out

- Code in the listed files that the core does not include:
  - the `argparse` plumbing of `parser.py` (`_read_args`, `_make_parser`, `_set_values`, `sub_command`, `parse_args`, argcomplete);
  - `print_args`;
  - `ColoredHelpFormatter`;
  - logging.
- `tabulate`, `textwrap.shorten`, `textwrap.fill`, and `str` and `repr` of plain values, are library code. They are parameters (`Display.TextOps`), not modelled. `str` and `repr` of a sub-command object are `stringify` itself and are modelled.
- Display.StripStringify: with `shorten` set, a sub-command value is the `repr` of its shortened `stringify` text; only that `repr` escapes ESC, so the lemma takes the absence of ESC there as a hypothesis.
- `args_to_dict` lives in `argser/utils.py` outside the modelled functions. Its result, the object's attributes in order, is taken as given (`Display.Args`).
- `TRUE_VALUES`, `FALSE_VALUES` and `IGNORE` live in `argser/consts.py`, which is not part of this model. They are parameters.
- Floats are modelled as reals, with no rounding.
- `lower`, `upper`, the regex `\d` and `int()` are ASCII-only. Python's are Unicode-aware; `int()` also strips all Unicode whitespace and accepts Unicode decimal digits. Py.ParseInt takes only six ASCII whitespace characters and ASCII digits.
- `is_list_like_type` is not modelled. A `List[T]` type is a distinct type constructor (`Ty.ListOf`). Subclasses of `List` found through `__orig_bases__`, and a bare `List`, are not distinguished.
- Parser.LenOrEmpty: objects of other classes that define `__len__` are not modelled. They raise TypeError here.
- Display.SplitByColsBad: a negative column count makes the Python loop run forever. The model returns the error `Diverges` instead.
- Display.MakeTable: `headers=None` passed explicitly is treated like omitted headers. Tabulate's own keyword arguments other than `headers` and `tablefmt` are not modelled.
- Fields.Arg.Names: `dest=None` is not modelled, since `dest` is always a text here. `aliases` is a sequence rather than a tuple.
- `Arg.__str__` and `Arg.__repr__` are not modelled.
- Parser.MakeShortcuts:
  - The arguments must be distinct objects. The same object listed twice is not modelled.
  - `arg.names` is read as the undashed `[dest] + aliases`. The `Opt` class it belongs to is not part of this model.
  - Python skips an argument whose `aliases` is not the empty tuple `()`. A user-given empty list `[]` is not `()`, so Python skips it too. The model has no tuple/list distinction, so it treats `[]` as no aliases and gives that argument a shortcut.
- Parser.MakeShortcutsSubWise: no argument object may be shared between levels, and every object must be allocated.
- Parser.AddPrefixedKey:
  - The target dictionary is a map, so insertion order is not kept.
  - The prefix is matched literally. Regex metacharacters in it are not interpreted.
- Parser.CollectAnnotations:
  - returns the merged annotations and does not mutate the class's own `__annotations__` in place;
  - treats a class without annotations as having none, not the ones `getattr` would inherit.
- Parser.GetFields:
  - Bases are merged depth-first in `__bases__` order, as the code does, which is not the Python method resolution order.
  - `fields[key] = value` is an append. This holds because `__dict__` keys are distinct.

## Findings

| source | as written | input that shows it | evidently intended | confidence | as-written member | corrected member |
|---|---|---|---|---|---|---|
| argser/parser.py:39-53 | `_get_fields` first puts a None placeholder for every collected annotation the class does not set itself, and base values are only merged for absent names | `class A: a: int = 1` and `class B(A): pass`: the annotations of `B` include `a` from `A`, so `B`'s fields hold `a = None` and the default 1 is lost | a value set in a base class fills in any field the subclass does not redefine, as the comment at line 50 says | not executed | Parser.InheritedDefaultLost | Parser.FixedFieldsOf |

Other points where the behaviour follows the code:
- `_add_prefixed_key` matches `prefix(.+)`, so the routed key runs only up to the first newline and must be non-empty.
- `make_table` of an object with no attributes raises, from `max()` of an empty sequence in `_merge_str_cols`.
