// Argument scanning with permutation: src/win32/getopt.c, exchange and
// _getopt_internal, in the PERMUTE ordering.

module GetoptSpec {
  import opened Wrappers

  // A C string without its terminator.
  type Arg = string

  const BAD_OPTION: int := 0

  datatype LongOption = LongOption(name: string, hasArg: int, hasFlag: bool, val: int)

  datatype Config = Config(optstring: string, longopts: Option<seq<LongOption>>, longOnly: bool)

  // The first call takes a leading '-' or '+' for another ordering, in which argv is
  // not permuted; a scanner for one of those is not built here.
  predicate Permutes(cfg: Config) {
    At(cfg.optstring, 0) != '-' && At(cfg.optstring, 0) != '+'
  }

  // s[i] as C reads it: the terminator follows the last character.
  function At(s: string, i: nat): char {
    if i < |s| then s[i] else '\0'
  }

  predicate IsNonOption(a: Arg) {
    At(a, 0) != '-' || At(a, 1) == '\0'
  }

  // The position of the first c in s at or after i, or |s|.
  function IndexOf(s: string, c: char, i: nat): (k: nat)
    requires i <= |s|
    ensures i <= k <= |s|
    ensures forall j :: i <= j < k ==> s[j] != c
    ensures k < |s| ==> s[k] == c
    decreases |s| - i
  {
    if i == |s| || s[i] == c then i else IndexOf(s, c, i + 1)
  }

  datatype Lookup = Found(index: nat) | Ambiguous | Unknown

  // The first entry at or after i whose name is `key`, or starts with it.
  function FirstNamed(opts: seq<LongOption>, key: string, exact: bool, i: nat): (k: nat)
    requires i <= |opts|
    ensures i <= k <= |opts|
    ensures forall j :: i <= j < k ==> !Named(opts[j], key, exact)
    ensures k < |opts| ==> Named(opts[k], key, exact)
    decreases |opts| - i
  {
    if i == |opts| || Named(opts[i], key, exact) then i else FirstNamed(opts, key, exact, i + 1)
  }

  predicate Named(o: LongOption, key: string, exact: bool) {
    if exact then o.name == key else key <= o.name
  }

  // An exact name wins; otherwise an abbreviation must be unique.
  function LookupLong(opts: seq<LongOption>, key: string): (found: Lookup)
    ensures found.Found? ==> found.index < |opts| && key <= opts[found.index].name
  {
    var e := FirstNamed(opts, key, true, 0);
    if e < |opts| then Found(e)
    else
      var p := FirstNamed(opts, key, false, 0);
      if p == |opts| then Unknown
      else if FirstNamed(opts, key, false, p + 1) < |opts| then Ambiguous
      else Found(p)
  }

  // One option handed to the caller: the code, optarg, the value given to
  // *longind and the one given to optopt, where they are set.
  datatype Report = Report(code: int, optarg: Option<Arg>, longind: Option<nat>, optopt: Option<char>)

  // The report, the new nextchar, and by how much optind advances.
  datatype Decoded = Decoded(report: Report, nextchar: Option<string>, used: nat)

  function IsLongForm(cfg: Config, elem: Arg): bool {
    cfg.longopts.Some? && At(elem, 0) == '-' && (At(elem, 1) == '-' || cfg.longOnly)
  }

  function MissingArgument(cfg: Config): int {
    if At(cfg.optstring, 0) == ':' then ':' as int else BAD_OPTION
  }

  function DecodeLong(cfg: Config, index: nat, value: Option<string>, following: Option<Arg>): Decoded
    requires cfg.longopts.Some? && index < |cfg.longopts.value|
  {
    var o := cfg.longopts.value[index];
    var code := if o.hasFlag then 0 else o.val;
    if value.Some? then
      if o.hasArg != 0 then Decoded(Report(code, value, Some(index), None), Some(""), 1)
      else Decoded(Report(BAD_OPTION, None, None, None), Some(""), 1)
    else if o.hasArg == 1 then
      if following.Some? then Decoded(Report(code, following, Some(index), None), Some(""), 2)
      else Decoded(Report(MissingArgument(cfg), None, None, None), Some(""), 1)
    else Decoded(Report(code, None, Some(index), None), Some(""), 1)
  }

  function DecodeShort(cfg: Config, chars: string, following: Option<Arg>): Decoded
    requires |chars| > 0
  {
    var c, rest := chars[0], chars[1..];
    var p := IndexOf(cfg.optstring, c, 0);
    if p == |cfg.optstring| || c == ':' then
      Decoded(Report(BAD_OPTION, None, None, Some(c)), Some(rest), if rest == "" then 1 else 0)
    else if At(cfg.optstring, p + 1) == ':' then
      if rest != "" then Decoded(Report(c as int, Some(rest), None, None), None, 1)
      else if At(cfg.optstring, p + 2) == ':' then Decoded(Report(c as int, None, None, None), None, 1)
      else if following.Some? then Decoded(Report(c as int, following, None, None), None, 2)
      else Decoded(Report(MissingArgument(cfg), None, None, Some(c)), None, 1)
    else Decoded(Report(c as int, None, None, None), Some(rest), if rest == "" then 1 else 0)
  }

  // What one call does with the unread characters `chars` of the option
  // element `elem`; `following` is the next argv element.
  function Decode(cfg: Config, elem: Arg, chars: string, following: Option<Arg>): (d: Decoded)
    requires |chars| > 0
    ensures d.used <= 2 && (d.used == 2 ==> following.Some?)
    ensures d.used == 0 <==> d.nextchar.Some? && d.nextchar.value != ""
    ensures d.used == 0 ==> d.nextchar.value == chars[1..]
  {
    if IsLongForm(cfg, elem) then
      var e := IndexOf(chars, '=', 0);
      match LookupLong(cfg.longopts.value, chars[..e])
      case Found(i) => DecodeLong(cfg, i, if e < |chars| then Some(chars[e + 1..]) else None, following)
      case Ambiguous => Decoded(Report(BAD_OPTION, None, None, None), Some(""), 1)
      case Unknown =>
        if !cfg.longOnly || At(elem, 1) == '-' || IndexOf(cfg.optstring, chars[0], 0) == |cfg.optstring| then
          Decoded(Report(BAD_OPTION, None, None, None), Some(""), 1)
        else DecodeShort(cfg, chars, following)
    else DecodeShort(cfg, chars, following)
  }

  // ---- The whole run, on an argv that is never permuted ----

  function FirstChars(cfg: Config, elem: Arg): (chars: string)
    requires !IsNonOption(elem) && elem != "--"
    ensures |chars| > 0
  {
    if cfg.longopts.Some? && At(elem, 1) == '-' then elem[2..] else elem[1..]
  }

  // How many argv elements an option element takes up, itself included, and
  // the reports it leads to.
  function Consumed(cfg: Config, elem: Arg, chars: string, following: Option<Arg>): (k: nat)
    requires |chars| > 0
    ensures k == 1 || (k == 2 && following.Some?)
    decreases |chars|
  {
    var d := Decode(cfg, elem, chars, following);
    if d.used == 0 then Consumed(cfg, elem, d.nextchar.value, following) else d.used
  }

  function Reports(cfg: Config, elem: Arg, chars: string, following: Option<Arg>): seq<Report>
    requires |chars| > 0
    decreases |chars|
  {
    var d := Decode(cfg, elem, chars, following);
    [d.report] + if d.used == 0 then Reports(cfg, elem, d.nextchar.value, following) else []
  }

  datatype Partition = Partition(options: seq<Arg>, rest: seq<Arg>, reports: seq<Report>)

  function Following(args: seq<Arg>, i: nat): (f: Option<Arg>)
    ensures f.Some? <==> i + 1 < |args|
  {
    if i + 1 < |args| then Some(args[i + 1]) else None
  }

  // Options with their arguments and `--` on one side, everything else on the
  // other, both in their original order.
  function Scan(cfg: Config, args: seq<Arg>, i: nat): Partition
    requires i <= |args|
    decreases |args| - i
  {
    if i == |args| then Partition([], [], [])
    else if args[i] == "--" then Partition(["--"], args[i + 1..], [])
    else if IsNonOption(args[i]) then
      var p := Scan(cfg, args, i + 1);
      p.(rest := [args[i]] + p.rest)
    else ScanOption(cfg, args, i, FirstChars(cfg, args[i]))
  }

  // The scan from inside the option element i, with `chars` still unread.
  function ScanOption(cfg: Config, args: seq<Arg>, i: nat, chars: string): Partition
    requires i < |args| && |chars| > 0
    decreases |args| - i, 0
  {
    var k := Consumed(cfg, args[i], chars, Following(args, i));
    var p := Scan(cfg, args, i + k);
    Partition(args[i..i + k] + p.options, p.rest, Reports(cfg, args[i], chars, Following(args, i)) + p.reports)
  }

  // The scan from any state between two calls.
  function ScanFrom(cfg: Config, args: seq<Arg>, i: nat, nextchar: Option<string>): Partition
    requires i <= |args| && (HasChars(nextchar) ==> i < |args|)
  {
    if HasChars(nextchar) then ScanOption(cfg, args, i, nextchar.value) else Scan(cfg, args, i)
  }

  lemma ScanNonOption(cfg: Config, args: seq<Arg>, i: nat)
    requires i < |args| && IsNonOption(args[i])
    ensures var p, q := Scan(cfg, args, i), Scan(cfg, args, i + 1);
      p == q.(rest := [args[i]] + q.rest)
  {
  }

  lemma ScanEnd(cfg: Config, args: seq<Arg>, i: nat)
    requires i < |args| && args[i] == "--"
    ensures Scan(cfg, args, i) == Partition(["--"], args[i + 1..], [])
  {
  }

  lemma ScanDone(cfg: Config, args: seq<Arg>)
    ensures Scan(cfg, args, |args|) == Partition([], [], [])
  {
  }

  // One decoding step, seen from the scan.
  lemma ScanOptionStep(cfg: Config, args: seq<Arg>, i: nat, chars: string)
    requires i < |args| && |chars| > 0
    ensures var d := Decode(cfg, args[i], chars, Following(args, i));
      && i + d.used <= |args|
      && (d.used == 0 <==> HasChars(d.nextchar))
      && var left := ScanFrom(cfg, args, i + d.used, d.nextchar);
        ScanOption(cfg, args, i, chars)
        == Partition(args[i..i + d.used] + left.options, left.rest, [d.report] + left.reports)
  {
    hide Decode, Scan, Consumed, Reports, ScanOption;
    var following := Following(args, i);
    var d := Decode(cfg, args[i], chars, following);
    DecodeAdvances(cfg, args[i], chars, following);
    ConsumedStep(cfg, args[i], chars, following);
    if d.used == 0 {
      StepWithin(cfg, args, i, chars, d);
    } else {
      StepOver(cfg, args, i, chars, d);
    }
  }

  lemma ConsumedStep(cfg: Config, elem: Arg, chars: string, following: Option<Arg>)
    requires |chars| > 0
    ensures var d := Decode(cfg, elem, chars, following);
      && Consumed(cfg, elem, chars, following)
        == (if d.used == 0 then Consumed(cfg, elem, d.nextchar.value, following) else d.used)
      && Reports(cfg, elem, chars, following)
        == [d.report] + (if d.used == 0 then Reports(cfg, elem, d.nextchar.value, following) else [])
  {
    hide Decode;
  }

  lemma StepWithin(cfg: Config, args: seq<Arg>, i: nat, chars: string, d: Decoded)
    requires i < |args| && |chars| > 0 && HasChars(d.nextchar)
    requires var following := Following(args, i);
      && Consumed(cfg, args[i], chars, following) == Consumed(cfg, args[i], d.nextchar.value, following)
      && Reports(cfg, args[i], chars, following) == [d.report] + Reports(cfg, args[i], d.nextchar.value, following)
    ensures var left := ScanOption(cfg, args, i, d.nextchar.value);
      ScanOption(cfg, args, i, chars) == Partition(args[i..i] + left.options, left.rest, [d.report] + left.reports)
  {
    hide Decode, Scan, Consumed, Reports;
    assert args[i..i] == [];
  }

  lemma StepOver(cfg: Config, args: seq<Arg>, i: nat, chars: string, d: Decoded)
    requires i + d.used <= |args| && i < |args| && |chars| > 0
    requires var following := Following(args, i);
      && Consumed(cfg, args[i], chars, following) == d.used
      && Reports(cfg, args[i], chars, following) == [d.report] + []
    ensures var left := Scan(cfg, args, i + d.used);
      ScanOption(cfg, args, i, chars)
      == Partition(args[i..i + d.used] + left.options, left.rest, [d.report] + left.reports)
  {
    hide Decode, Scan, Consumed, Reports;
    assert [d.report] + [] == [d.report];
  }

  lemma DecodeAdvances(cfg: Config, elem: Arg, chars: string, following: Option<Arg>)
    requires |chars| > 0
    ensures var d := Decode(cfg, elem, chars, following);
      && d.used <= 2 && (d.used == 2 ==> following.Some?)
      && (d.used == 0 <==> HasChars(d.nextchar))
      && (d.used == 0 ==> d.nextchar.value == chars[1..])
  {
  }

  // ---- What the scan makes of each form of an option ----

  // The scan at i takes `used` elements for the options and reports `report` first.
  ghost predicate Reads(cfg: Config, args: seq<Arg>, i: nat, used: nat, report: Report) {
    && i + used <= |args|
    && var after := Scan(cfg, args, i + used);
      Scan(cfg, args, i) == Partition(args[i..i + used] + after.options, after.rest, [report] + after.reports)
  }

  // With longOnly, an element with one dash may be a long option.
  predicate NotLong(cfg: Config, chars: string) {
    cfg.longopts.None? || !cfg.longOnly
    || forall j | 0 <= j < |cfg.longopts.value| :: !(chars[..IndexOf(chars, '=', 0)] <= cfg.longopts.value[j].name)
  }

  // The element i is -c or -c followed by more, and p is where optstring lists c.
  predicate ShortAt(cfg: Config, args: seq<Arg>, i: nat, c: char, p: nat) {
    && i < |args| && |args[i]| >= 2 && args[i][0] == '-' && args[i][1] == c
    && c != '-' && c != ':' && c != '\0' && NotLong(cfg, args[i][1..])
    && p < |cfg.optstring| && cfg.optstring[p] == c
    && forall j | 0 <= j < p :: cfg.optstring[j] != c
  }

  // How many colons follow an option character: none, one or two.
  function Colons(optstring: string, p: nat): nat
    requires p < |optstring|
  {
    if p + 1 == |optstring| || optstring[p + 1] != ':' then 0
    else if p + 2 == |optstring| || optstring[p + 2] != ':' then 1
    else 2
  }

  lemma ShortDecodes(cfg: Config, args: seq<Arg>, i: nat, c: char, p: nat)
    requires ShortAt(cfg, args, i, c, p)
    ensures IndexOf(cfg.optstring, c, 0) == p
    ensures !IsNonOption(args[i]) && args[i] != "--" && FirstChars(cfg, args[i]) == args[i][1..]
    ensures Scan(cfg, args, i) == ScanOption(cfg, args, i, args[i][1..])
    ensures Decode(cfg, args[i], args[i][1..], Following(args, i))
         == DecodeShort(cfg, args[i][1..], Following(args, i))
  {
    var chars := args[i][1..];
    if cfg.longopts.Some? && cfg.longOnly {
      LookupIff(cfg.longopts.value, chars[..IndexOf(chars, '=', 0)]);
    }
    hide LookupLong, DecodeShort, DecodeLong;
  }

  lemma ReadsWhole(cfg: Config, args: seq<Arg>, i: nat, d: Decoded)
    requires i < |args| && !IsNonOption(args[i]) && args[i] != "--"
    requires d == Decode(cfg, args[i], FirstChars(cfg, args[i]), Following(args, i)) && d.used > 0
    ensures Reads(cfg, args, i, d.used, d.report)
  {
    var chars := FirstChars(cfg, args[i]);
    ScanOptionStep(cfg, args, i, chars);
    hide Decode, ScanOption, Consumed, Reports;
  }

  // -c file, when c needs an argument.
  lemma RequiredInNext(cfg: Config, args: seq<Arg>, i: nat, c: char, p: nat)
    requires ShortAt(cfg, args, i, c, p) && Colons(cfg.optstring, p) == 1 && |args[i]| == 2 && i + 1 < |args|
    ensures Reads(cfg, args, i, 2, Report(c as int, Some(args[i + 1]), None, None))
  {
    ShortDecodes(cfg, args, i, c, p);
    ReadsWhole(cfg, args, i, Decode(cfg, args[i], args[i][1..], Following(args, i)));
    hide Scan, Reads, Decode;
  }

  // -c at the end, when c needs an argument.
  lemma RequiredMissing(cfg: Config, args: seq<Arg>, i: nat, c: char, p: nat)
    requires ShortAt(cfg, args, i, c, p) && Colons(cfg.optstring, p) == 1 && |args[i]| == 2 && i + 1 == |args|
    ensures var code := if cfg.optstring[0] == ':' then ':' as int else 0;
      Reads(cfg, args, i, 1, Report(code, None, None, Some(c)))
  {
    ShortDecodes(cfg, args, i, c, p);
    ReadsWhole(cfg, args, i, Decode(cfg, args[i], args[i][1..], Following(args, i)));
    hide Scan, Reads, Decode;
  }

  // -cfile, when c takes an argument, needed or not.
  lemma AttachedArgument(cfg: Config, args: seq<Arg>, i: nat, c: char, p: nat)
    requires ShortAt(cfg, args, i, c, p) && Colons(cfg.optstring, p) >= 1 && |args[i]| > 2
    ensures Reads(cfg, args, i, 1, Report(c as int, Some(args[i][2..]), None, None))
  {
    ShortDecodes(cfg, args, i, c, p);
    assert args[i][1..][1..] == args[i][2..];
    ReadsWhole(cfg, args, i, Decode(cfg, args[i], args[i][1..], Following(args, i)));
    hide Scan, Reads, Decode;
  }

  // -c, when c takes an argument only if it is attached, or none at all.
  lemma WithoutArgument(cfg: Config, args: seq<Arg>, i: nat, c: char, p: nat)
    requires ShortAt(cfg, args, i, c, p) && Colons(cfg.optstring, p) != 1 && |args[i]| == 2
    ensures Reads(cfg, args, i, 1, Report(c as int, None, None, None))
  {
    ShortDecodes(cfg, args, i, c, p);
    ReadsWhole(cfg, args, i, Decode(cfg, args[i], args[i][1..], Following(args, i)));
    hide Scan, Reads, Decode;
  }

  // -cxyz, when c takes no argument: c is reported, and the scan goes on with xyz.
  lemma InCluster(cfg: Config, args: seq<Arg>, i: nat, c: char, p: nat)
    requires ShortAt(cfg, args, i, c, p) && Colons(cfg.optstring, p) == 0 && |args[i]| > 2
    ensures var left := ScanOption(cfg, args, i, args[i][2..]);
      Scan(cfg, args, i) == left.(reports := [Report(c as int, None, None, None)] + left.reports)
  {
    ShortDecodes(cfg, args, i, c, p);
    assert args[i][1..][1..] == args[i][2..];
    hide Scan, Consumed, Reports, ScanOption;
    ScanOptionStep(cfg, args, i, args[i][1..]);
    assert args[i..i] == [];
  }

  // -x, when optstring does not list x.
  lemma UnknownShort(cfg: Config, args: seq<Arg>, i: nat, c: char)
    requires i < |args| && args[i] == ['-', c] && c != '-' && c != '\0' && (cfg.longopts.None? || !cfg.longOnly)
    requires c == ':' || c !in cfg.optstring
    ensures Reads(cfg, args, i, 1, Report(0, None, None, Some(c)))
  {
    var k := IndexOf(cfg.optstring, c, 0);
    assert FirstChars(cfg, args[i]) == [c] && [c][1..] == "";
    ReadsWhole(cfg, args, i, Decode(cfg, args[i], [c], Following(args, i)));
    hide Scan, Reads;
  }

  // A name finds the first option of that very name, or else the only one it abbreviates.
  predicate Picks(opts: seq<LongOption>, key: string, index: nat) {
    && index < |opts|
    && if opts[index].name == key then forall j | 0 <= j < index :: opts[j].name != key
       else key <= opts[index].name && forall j | 0 <= j < |opts| && j != index :: !(key <= opts[j].name)
  }

  lemma LookupIff(opts: seq<LongOption>, key: string)
    ensures forall index: nat :: LookupLong(opts, key) == Found(index) <==> Picks(opts, key, index)
    ensures LookupLong(opts, key) == Unknown <==> forall j | 0 <= j < |opts| :: !(key <= opts[j].name)
  {
    hide FirstNamed;
    var e, p := FirstNamed(opts, key, true, 0), FirstNamed(opts, key, false, 0);
    if e < |opts| {
      assert opts[e].name == key && key <= opts[e].name;
      forall index: nat
        ensures Picks(opts, key, index) <==> index == e
      {
      }
    } else {
      assert forall j | 0 <= j < |opts| :: !Named(opts[j], key, true);
      if p < |opts| {
        assert key <= opts[p].name;
        var q := FirstNamed(opts, key, false, p + 1);
        assert forall j | p + 1 <= j < q :: !Named(opts[j], key, false);
        assert forall j | 0 <= j < p :: !Named(opts[j], key, false);
        if q < |opts| {
          assert key <= opts[q].name;
        }
      } else {
        assert forall j | 0 <= j < p :: !Named(opts[j], key, false);
      }
    }
  }

  // The element i is a long option's name, after two dashes or, with longOnly, after one.
  predicate LongAt(cfg: Config, args: seq<Arg>, i: nat, key: string) {
    && i < |args| && cfg.longopts.Some? && '=' !in key && '\0' !in key
    && (args[i] == "--" + key || (cfg.longOnly && key != "" && key[0] != '-' && args[i] == "-" + key))
    && key != ""
  }

  // The same with a value behind '='.
  predicate LongWithValueAt(cfg: Config, args: seq<Arg>, i: nat, key: string, value: string) {
    && i < |args| && cfg.longopts.Some? && '=' !in key && '\0' !in key
    && (args[i] == "--" + key + "=" + value
        || (cfg.longOnly && key != "" && key[0] != '-' && args[i] == "-" + key + "=" + value))
  }

  lemma FirstIndex(s: string, c: char, n: nat)
    requires n <= |s| && (forall j | 0 <= j < n :: s[j] != c) && (n < |s| ==> s[n] == c)
    ensures IndexOf(s, c, 0) == n
  {
  }

  lemma LongDecodes(cfg: Config, args: seq<Arg>, i: nat, key: string, index: nat)
    requires LongAt(cfg, args, i, key) && Picks(cfg.longopts.value, key, index)
    ensures !IsNonOption(args[i]) && args[i] != "--" && FirstChars(cfg, args[i]) == key
    ensures Decode(cfg, args[i], key, Following(args, i)) == DecodeLong(cfg, index, None, Following(args, i))
  {
    LookupIff(cfg.longopts.value, key);
    FirstIndex(key, '=', |key|);
    assert key[..|key|] == key;
    LongChars(cfg, args[i], key);
    hide LookupLong, IndexOf;
  }

  lemma LongChars(cfg: Config, elem: Arg, chars: string)
    requires cfg.longopts.Some? && chars != "" && chars[0] != '\0'
    requires elem == "--" + chars || (cfg.longOnly && chars[0] != '-' && elem == "-" + chars)
    ensures !IsNonOption(elem) && elem != "--" && FirstChars(cfg, elem) == chars && IsLongForm(cfg, elem)
  {
    if elem == "--" + chars {
      assert elem[2..] == chars;
    } else {
      assert elem[1] == chars[0] && elem[1..] == chars;
    }
  }

  lemma ValueDecodes(cfg: Config, args: seq<Arg>, i: nat, key: string, value: string, index: nat)
    requires LongWithValueAt(cfg, args, i, key, value) && Picks(cfg.longopts.value, key, index)
    ensures var chars := key + "=" + value;
      && !IsNonOption(args[i]) && args[i] != "--" && FirstChars(cfg, args[i]) == chars
      && Decode(cfg, args[i], chars, Following(args, i)) == DecodeLong(cfg, index, Some(value), Following(args, i))
  {
    var chars := key + "=" + value;
    LookupIff(cfg.longopts.value, key);
    assert chars[..|key|] == key && chars[|key| + 1..] == value;
    FirstIndex(chars, '=', |key|);
    assert args[i] == "--" + chars || args[i] == "-" + chars;
    LongChars(cfg, args[i], chars);
    hide LookupLong, IndexOf;
  }

  // What the caller gets for a long option that was found.
  function Code(o: LongOption): int {
    if o.hasFlag then 0 else o.val
  }

  // --name=value; a value that the option does not take is an error.
  lemma LongWithValue(cfg: Config, args: seq<Arg>, i: nat, key: string, value: string, index: nat)
    requires LongWithValueAt(cfg, args, i, key, value) && Picks(cfg.longopts.value, key, index)
    ensures var o := cfg.longopts.value[index];
      Reads(cfg, args, i, 1,
        if o.hasArg == 0 then Report(0, None, None, None) else Report(Code(o), Some(value), Some(index), None))
  {
    ValueDecodes(cfg, args, i, key, value, index);
    ReadsWhole(cfg, args, i, Decode(cfg, args[i], FirstChars(cfg, args[i]), Following(args, i)));
    hide Scan, Reads, Decode;
  }

  // --name; an argument that it needs is the next element, which must be there.
  lemma LongWithoutValue(cfg: Config, args: seq<Arg>, i: nat, key: string, index: nat)
    requires LongAt(cfg, args, i, key) && Picks(cfg.longopts.value, key, index)
    ensures var o := cfg.longopts.value[index];
      if o.hasArg != 1 then Reads(cfg, args, i, 1, Report(Code(o), None, Some(index), None))
      else if i + 1 < |args| then Reads(cfg, args, i, 2, Report(Code(o), Some(args[i + 1]), Some(index), None))
      else Reads(cfg, args, i, 1,
        Report(if cfg.optstring != "" && cfg.optstring[0] == ':' then ':' as int else 0, None, None, None))
  {
    LongDecodes(cfg, args, i, key, index);
    ReadsWhole(cfg, args, i, Decode(cfg, args[i], key, Following(args, i)));
    hide Scan, Reads, Decode;
  }

  // --name, when no option or more than one is meant. With longOnly and one dash, an
  // element that names no option may still be a short one (ShortAt).
  lemma LongNotFound(cfg: Config, args: seq<Arg>, i: nat, key: string)
    requires LongAt(cfg, args, i, key) && forall index: nat :: !Picks(cfg.longopts.value, key, index)
    requires args[i] == "--" + key || key[0] !in cfg.optstring
      || exists j | 0 <= j < |cfg.longopts.value| :: key <= cfg.longopts.value[j].name
    ensures Reads(cfg, args, i, 1, Report(0, None, None, None))
  {
    LookupIff(cfg.longopts.value, key);
    FirstIndex(key, '=', |key|);
    assert key[..|key|] == key;
    LongChars(cfg, args[i], key);
    hide LookupLong, IndexOf;
    assert !LookupLong(cfg.longopts.value, key).Found?;
    ReadsWhole(cfg, args, i, Decode(cfg, args[i], key, Following(args, i)));
    hide Scan, Reads;
  }

  // What is no option: an element without a dash at the front, or a dash alone.
  lemma NonOptionIff(a: Arg)
    requires '\0' !in a
    ensures IsNonOption(a) <==> a == "" || a[0] != '-' || a == "-"
  {
  }

  predicate HasChars(nextchar: Option<string>) {
    nextchar.Some? && nextchar.value != ""
  }

  // `whole` is `a` and `b` merged, each in its own order.
  ghost predicate Interleaves<T>(whole: seq<T>, a: seq<T>, b: seq<T>) {
    if |whole| == 0 then a == [] && b == []
    else
      || (|a| > 0 && a[0] == whole[0] && Interleaves(whole[1..], a[1..], b))
      || (|b| > 0 && b[0] == whole[0] && Interleaves(whole[1..], a, b[1..]))
  }

  lemma {:induction false} LeftOnly<T>(a: seq<T>)
    ensures Interleaves(a, a, [])
  {
    if |a| > 0 {
      LeftOnly(a[1..]);
    }
  }

  lemma {:induction false} RightOnly<T>(b: seq<T>)
    ensures Interleaves(b, [], b)
  {
    if |b| > 0 {
      RightOnly(b[1..]);
    }
  }

  lemma {:induction false} PrefixLeft<T>(pre: seq<T>, whole: seq<T>, a: seq<T>, b: seq<T>)
    requires Interleaves(whole, a, b)
    ensures Interleaves(pre + whole, pre + a, b)
  {
    if |pre| == 0 {
      assert pre + whole == whole && pre + a == a;
    } else {
      PrefixLeft(pre[1..], whole, a, b);
      assert (pre + whole)[1..] == pre[1..] + whole && (pre + a)[1..] == pre[1..] + a;
    }
  }

  lemma StableEnd(args: seq<Arg>, i: nat)
    requires i < |args| && args[i] == "--"
    ensures Interleaves(args[i..], ["--"], args[i + 1..])
  {
    RightOnly(args[i + 1..]);
    PrefixLeft(["--"], args[i + 1..], [], args[i + 1..]);
    assert args[i..] == ["--"] + args[i + 1..];
  }

  lemma StableRest(args: seq<Arg>, i: nat, options: seq<Arg>, rest: seq<Arg>)
    requires i < |args| && Interleaves(args[i + 1..], options, rest)
    ensures Interleaves(args[i..], options, [args[i]] + rest)
  {
    assert args[i..][1..] == args[i + 1..];
    assert ([args[i]] + rest)[1..] == rest;
  }

  lemma StableOption(args: seq<Arg>, i: nat, k: nat, options: seq<Arg>, rest: seq<Arg>)
    requires i + k <= |args| && Interleaves(args[i + k..], options, rest)
    ensures Interleaves(args[i..], args[i..i + k] + options, rest)
  {
    hide Interleaves;
    PrefixLeft(args[i..i + k], args[i + k..], options, rest);
    assert args[i..] == args[i..i + k] + args[i + k..];
  }

  // The reference scan is a stable partition: nothing is lost, doubled or
  // reordered within either part.
  lemma {:induction false} ScanIsStable(cfg: Config, args: seq<Arg>, i: nat)
    requires i <= |args|
    ensures var p := Scan(cfg, args, i);
      Interleaves(args[i..], p.options, p.rest)
    decreases |args| - i
  {
    if i == |args| {
      LeftOnly<Arg>([]);
    } else if args[i] == "--" {
      hide Interleaves, Consumed, Reports;
      StableEnd(args, i);
    } else if IsNonOption(args[i]) {
      hide Interleaves, Consumed, Reports;
      ScanIsStable(cfg, args, i + 1);
      var after := Scan(cfg, args, i + 1);
      StableRest(args, i, after.options, after.rest);
    } else {
      hide Interleaves, Consumed, Reports;
      var k := Consumed(cfg, args[i], FirstChars(cfg, args[i]), Following(args, i));
      ScanIsStable(cfg, args, i + k);
      var after := Scan(cfg, args, i + k);
      StableOption(args, i, k, after.options, after.rest);
    }
  }
}

module Getopt {
  import opened Wrappers
  import opened GetoptSpec

  function Reversed<T>(s: seq<T>): (r: seq<T>)
    ensures |r| == |s|
  {
    seq(|s|, i requires 0 <= i < |s| => s[|s| - 1 - i])
  }

  // Reversing a whole and then its two parts swaps the parts.
  lemma ThreeReversals<T>(a: seq<T>, b: seq<T>)
    ensures Reversed(a + b) == Reversed(b) + Reversed(a)
    ensures Reversed(Reversed(a)) == a && Reversed(Reversed(b)) == b
  {
  }

  // Reverses the middle one of three adjacent pieces by swapping inwards.
  method Reverse<T>(argv: array<T>, lo: nat, hi: nat, ghost x: seq<T>, ghost y: seq<T>, ghost z: seq<T>)
    requires argv[..] == x + y + z && lo == |x| && hi == |x| + |y|
    modifies argv
    ensures argv[..] == x + Reversed(y) + z
  {
    var first: int, last: int := lo, hi - 1;
    while first < last
      invariant lo <= first <= last + 2 && first + last == lo + hi - 1
      invariant forall k :: lo <= k < first || last < k < hi ==> argv[k] == y[hi - 1 - k]
      invariant forall k :: first <= k <= last ==> argv[k] == y[k - lo]
      invariant forall k :: 0 <= k < lo ==> argv[k] == x[k]
      invariant forall k :: hi <= k < argv.Length ==> argv[k] == z[k - hi]
    {
      argv[first], argv[last] := argv[last], argv[first];
      first, last := first + 1, last - 1;
    }
  }

  // The loops of _getopt_internal that look up a name.
  method FindLong(opts: seq<LongOption>, key: string) returns (found: Lookup)
    ensures found == LookupLong(opts, key)
  {
    var pfound: Option<nat> := None;
    var ambig := false;
    for i := 0 to |opts|
      invariant forall j :: 0 <= j < i ==> !Named(opts[j], key, true)
      invariant pfound == None ==> !ambig && forall j :: 0 <= j < i ==> !Named(opts[j], key, false)
      invariant pfound.Some? ==> pfound.value < i && pfound.value == FirstNamed(opts, key, false, 0)
      invariant pfound.Some? ==> (ambig <==> FirstNamed(opts, key, false, pfound.value + 1) < i)
    {
      if key <= opts[i].name {
        if |key| == |opts[i].name| {
          assert opts[i].name == key;
          return Found(i);
        } else if pfound == None {
          pfound := Some(i);
        } else {
          ambig := true;
        }
      }
    }
    if ambig {
      return Ambiguous;
    } else if pfound.Some? {
      return Found(pfound.value);
    } else {
      return Unknown;
    }
  }

  method MyIndex(s: string, c: char) returns (k: nat)
    ensures k == IndexOf(s, c, 0)
  {
    k := 0;
    while k < |s| && s[k] != c
      invariant k <= |s| && IndexOf(s, c, k) == IndexOf(s, c, 0)
    {
      k := k + 1;
    }
  }

  class Getopt {
    const cfg: Config
    var optind: nat
    var nextchar: Option<string>
    var firstNonopt: nat
    var lastNonopt: nat

    // argv as it was, what has been reported, and argv cut at the two marks
    // and at optind.
    ghost var orig: seq<Arg>
    ghost var reported: seq<Report>
    ghost var done: seq<Arg>
    ghost var skipped: seq<Arg>
    ghost var options: seq<Arg>

    constructor (cfg: Config, ghost args: seq<Arg>)
      requires Permutes(cfg)
      ensures this.cfg == cfg && Fresh(args)
    {
      this.cfg := cfg;
      optind, nextchar, firstNonopt, lastNonopt := 0, None, 0, 0;
      orig, reported, done, skipped, options := args, [], [], [], [];
    }

    ghost predicate Fresh(args: seq<Arg>)
      reads this
    {
      optind == 0 && orig == args && reported == []
    }

    ghost predicate Cut(args: seq<Arg>)
      reads this
    {
      && optind <= |orig|
      && args == done + (skipped + options) + orig[optind..]
      && firstNonopt == |done| >= 1 && optind == |done + skipped + options|
    }

    ghost predicate Marked()
      reads this
    {
      lastNonopt == |done + skipped|
    }

    // What is still ahead completes what has been done to the reference scan.
    ghost predicate Tallied()
      reads this
    {
      && |orig| >= 1 && optind <= |orig| && (HasChars(nextchar) ==> optind < |orig|)
      && var left, all := ScanFrom(cfg, orig, optind, nextchar), Scan(cfg, orig, 1);
      && [orig[0]] + all.options == done + options + left.options
      && all.rest == skipped + left.rest
      && all.reports == reported + left.reports
    }

    ghost predicate Scanning(args: seq<Arg>)
      reads this
    {
      Cut(args) && Marked() && Tallied()
    }

    ghost predicate Finished(args: seq<Arg>)
      reads this
    {
      && |orig| >= 1
      && var all := Scan(cfg, orig, 1);
      && args == [orig[0]] + all.options + all.rest
      && optind == 1 + |all.options|
      && reported == all.reports
    }

    // [first, last) and [last, optind) change places, each in its own order.
    method Exchange(argv: array<Arg>)
      requires Cut(argv[..]) && Marked()
      modifies argv, this`firstNonopt, this`lastNonopt, this`done, this`options
      ensures Cut(argv[..]) && Marked()
      ensures done == old(done + options) && options == []
    {
      hide Reversed;
      ghost var ahead := orig[optind..];
      ThreeReversals(skipped, options);
      Reverse(argv, firstNonopt, optind, done, skipped + options, ahead);
      var start := firstNonopt;
      firstNonopt := firstNonopt + (optind - lastNonopt);
      assert argv[..] == done + Reversed(options) + (Reversed(skipped) + ahead);
      Reverse(argv, start, firstNonopt, done, Reversed(options), Reversed(skipped) + ahead);
      lastNonopt := optind;
      assert argv[..] == (done + options) + Reversed(skipped) + ahead;
      Reverse(argv, firstNonopt, lastNonopt, done + options, Reversed(skipped), ahead);
      done, options := done + options, [];
      assert argv[..] == done + (skipped + options) + ahead;
    }

    // Moves the options read since the last non-option in front of it.
    method CloseGap(argv: array<Arg>)
      requires Scanning(argv[..]) && !HasChars(nextchar)
      modifies argv, this`firstNonopt, this`lastNonopt, this`done, this`options
      ensures Cut(argv[..]) && Tallied() && options == []
    {
      hide ScanFrom, Scan;
      ghost var left := ScanFrom(cfg, orig, optind, nextchar);
      assert done + options + left.options == (done + options) + [] + left.options;
      if firstNonopt != lastNonopt && lastNonopt != optind {
        Exchange(argv);
      } else if lastNonopt != optind {
        firstNonopt := optind;
        assert skipped == [];
        done, options := done + options, [];
      } else {
        assert options == [];
      }
    }

    // Extends the range of non-options.
    method SkipNonOptions(argv: array<Arg>)
      requires Cut(argv[..]) && Tallied() && options == [] && !HasChars(nextchar)
      modifies this`optind, this`lastNonopt, this`skipped
      ensures Scanning(argv[..]) && options == []
      ensures optind < |orig| ==> !IsNonOption(orig[optind])
    {
      hide Scan;
      while optind < argv.Length && (At(argv[optind], 0) != '-' || At(argv[optind], 1) == '\0')
        invariant Cut(argv[..]) && Tallied()
        modifies this`optind, this`skipped
        decreases argv.Length - optind
      {
        Ahead(argv[..]);
        ScanNonOption(cfg, orig, optind);
        Shift(argv[..]);
        skipped := skipped + [orig[optind]];
        optind := optind + 1;
      }
      lastNonopt := optind;
      Ahead(argv[..]);
    }

    // What is ahead of optind is still as it was.
    lemma Ahead(args: seq<Arg>)
      requires Cut(args)
      ensures |args| == |orig| && args[optind..] == orig[optind..]
      ensures optind < |orig| ==> args[optind] == orig[optind]
    {
    }

    lemma Shift(args: seq<Arg>)
      requires Cut(args) && options == [] && optind < |orig|
      ensures args == done + ((skipped + [orig[optind]]) + options) + orig[optind + 1..]
    {
      assert orig[optind..] == [orig[optind]] + orig[optind + 1..];
    }

    lemma StartTally(args: seq<Arg>)
      requires |orig| >= 1 && args == orig && reported == [] && !HasChars(nextchar)
      requires optind == firstNonopt == lastNonopt == 1 && done == [orig[0]] && skipped == options == []
      ensures Scanning(args)
    {
      hide Scan;
      assert orig == [orig[0]] + orig[1..];
      var all := Scan(cfg, orig, 1);
      assert done + options + all.options == [orig[0]] + all.options && skipped + all.rest == all.rest;
      assert reported + all.reports == all.reports;
    }

    lemma Conclude(args: seq<Arg>)
      requires Scanning(args) && options == [] && optind == |orig| && !HasChars(nextchar)
      ensures var all := Scan(cfg, orig, 1);
        && args == [orig[0]] + all.options + all.rest
        && firstNonopt == 1 + |all.options| && reported == all.reports
      ensures firstNonopt == lastNonopt ==> optind == firstNonopt
    {
      assert Scan(cfg, orig, |orig|) == Partition([], [], []);
      assert orig[optind..] == [];
    }

    lemma EnterOption(args: seq<Arg>)
      requires Scanning(args) && optind < |orig| && !HasChars(nextchar)
      requires !IsNonOption(orig[optind]) && orig[optind] != "--"
      ensures ScanFrom(cfg, orig, optind, nextchar)
              == ScanFrom(cfg, orig, optind, Some(FirstChars(cfg, orig[optind])))
    {
    }

    // One step of decoding, seen from the reference scan.
    lemma Advance(args: seq<Arg>, d: Decoded)
      requires Cut(args) && Tallied() && HasChars(nextchar)
      requires d == Decode(cfg, orig[optind], nextchar.value, Following(orig, optind))
      ensures optind + d.used <= |orig|
      ensures d.used == 0 ==> HasChars(d.nextchar)
      ensures d.used != 0 ==> !HasChars(d.nextchar)
      ensures var left := ScanFrom(cfg, orig, optind + d.used, d.nextchar);
        var all := Scan(cfg, orig, 1);
        && [orig[0]] + all.options == done + (options + orig[optind..optind + d.used]) + left.options
        && all.rest == skipped + left.rest
        && all.reports == (reported + [d.report]) + left.reports
      ensures args == done + (skipped + (options + orig[optind..optind + d.used])) + orig[optind + d.used..]
    {
      hide Scan, Decode, ScanOption;
      ScanOptionStep(cfg, orig, optind, nextchar.value);
      Regroup(args, d.used);
      hide ScanFrom;
      var left := ScanFrom(cfg, orig, optind + d.used, d.nextchar);
      var used := orig[optind..optind + d.used];
      assert done + options + (used + left.options) == done + (options + used) + left.options;
      assert reported + ([d.report] + left.reports) == (reported + [d.report]) + left.reports;
    }

    lemma Regroup(args: seq<Arg>, used: nat)
      requires Cut(args) && optind + used <= |orig|
      ensures args == done + (skipped + (options + orig[optind..optind + used])) + orig[optind + used..]
    {
      var ahead, rest := orig[optind..optind + used], orig[optind + used..];
      assert orig[optind..] == ahead + rest;
    }

    method Permute(argv: array<Arg>)
      requires Scanning(argv[..]) && !HasChars(nextchar)
      modifies argv, this`optind, this`firstNonopt, this`lastNonopt, this`done, this`skipped, this`options
      ensures Scanning(argv[..]) && options == []
      ensures optind < |orig| ==> !IsNonOption(orig[optind])
    {
      CloseGap(argv);
      SkipNonOptions(argv);
    }

    // `--` is exchanged with the skipped non-options as if it were an option.
    method JoinDashes(argv: array<Arg>)
      requires Cut(argv[..]) && Marked() && options == [] && optind < |orig|
      modifies argv, this`optind, this`firstNonopt, this`lastNonopt, this`done, this`options
      ensures Cut(argv[..]) && options == [] && optind == old(optind) + 1
      ensures done == old(done) + [orig[old(optind)]]
    {
      Ahead(argv[..]);
      assert orig[optind..] == [orig[optind]] + orig[optind + 1..];
      options := [orig[optind]];
      optind := optind + 1;
      assert argv[..] == done + (skipped + options) + orig[optind..];
      if firstNonopt != lastNonopt && lastNonopt != optind {
        Exchange(argv);
      } else if firstNonopt == lastNonopt {
        firstNonopt := optind;
        assert skipped == [];
        done, options := done + options, [];
      }
    }

    // The special argument `--` joins the options, everything after it the rest.
    method EndOfOptions(argv: array<Arg>)
      requires Scanning(argv[..]) && options == [] && !HasChars(nextchar)
      requires optind < |orig| && orig[optind] == "--"
      modifies argv, this`optind, this`firstNonopt, this`lastNonopt, this`done, this`skipped, this`options
      ensures Scanning(argv[..]) && options == [] && optind == |orig|
    {
      hide Scan;
      ScanEnd(cfg, orig, optind);
      ghost var all := Scan(cfg, orig, 1);
      assert [orig[0]] + all.options == done + ["--"] && all.rest == skipped + orig[optind + 1..];
      assert all.reports == reported;
      JoinDashes(argv);
      SkipRest(argv);
    }

    // What is left joins the non-options.
    method SkipRest(argv: array<Arg>)
      requires Cut(argv[..]) && options == [] && |orig| >= 1 && !HasChars(nextchar)
      requires var all := Scan(cfg, orig, 1);
        && [orig[0]] + all.options == done && all.rest == skipped + orig[optind..] && all.reports == reported
      modifies this`optind, this`lastNonopt, this`skipped
      ensures Scanning(argv[..]) && options == [] && optind == |orig|
    {
      ScanDone(cfg, orig);
      hide Scan;
      Ahead(argv[..]);
      ghost var tail := orig[optind..];
      lastNonopt := argv.Length;
      optind := argv.Length;
      assert done + (skipped + options) + tail == done + (skipped + tail + options) + orig[optind..];
      skipped := skipped + tail;
      assert done + options + [] == done && skipped + [] == skipped && reported + [] == reported;
    }

    // The last part of _getopt_internal: one option character.
    method TakeShort(argv: array<Arg>) returns (r: Report)
      requires HasChars(nextchar) && optind < argv.Length
      modifies this`optind, this`nextchar
      ensures var d := DecodeShort(cfg, old(nextchar).value, Following(argv[..], old(optind)));
        r == d.report && nextchar == d.nextchar && optind == old(optind) + d.used
    {
      var c := nextchar.value[0];
      var rest := nextchar.value[1..];
      nextchar := Some(rest);
      var temp := MyIndex(cfg.optstring, c);
      if rest == "" {
        optind := optind + 1;
      }
      if temp == |cfg.optstring| || c == ':' {
        return Report(BAD_OPTION, None, None, Some(c));
      }
      if At(cfg.optstring, temp + 1) == ':' {
        var optarg: Option<Arg> := None;
        if At(cfg.optstring, temp + 2) == ':' {
          if rest != "" {
            optarg := nextchar;
            optind := optind + 1;
          }
          nextchar := None;
        } else {
          if rest != "" {
            optarg := nextchar;
            optind := optind + 1;
          } else if optind == argv.Length {
            nextchar := None;
            return Report(if At(cfg.optstring, 0) == ':' then ':' as int else BAD_OPTION, None, None, Some(c));
          } else {
            optarg := Some(argv[optind]);
            optind := optind + 1;
          }
          nextchar := None;
        }
        return Report(c as int, optarg, None, None);
      }
      return Report(c as int, None, None, None);
    }

    // The part that handles a long option that was found in the table.
    method TakeLong(argv: array<Arg>, index: nat, e: nat) returns (r: Report)
      requires cfg.longopts.Some? && index < |cfg.longopts.value|
      requires HasChars(nextchar) && optind < argv.Length && e <= |nextchar.value|
      modifies this`optind, this`nextchar
      ensures var chars := old(nextchar).value;
        var value := if e < |chars| then Some(chars[e + 1..]) else None;
        var d := DecodeLong(cfg, index, value, Following(argv[..], old(optind)));
        r == d.report && nextchar == d.nextchar && optind == old(optind) + d.used
    {
      var pfound := cfg.longopts.value[index];
      var chars := nextchar.value;
      var optarg: Option<Arg> := None;
      optind := optind + 1;
      nextchar := Some("");
      if e < |chars| {
        if pfound.hasArg != 0 {
          optarg := Some(chars[e + 1..]);
        } else {
          return Report(BAD_OPTION, None, None, None);
        }
      } else if pfound.hasArg == 1 {
        if optind < argv.Length {
          optarg := Some(argv[optind]);
          optind := optind + 1;
        } else {
          return Report(if At(cfg.optstring, 0) == ':' then ':' as int else BAD_OPTION, None, None, None);
        }
      }
      return Report(if pfound.hasFlag then 0 else pfound.val, optarg, Some(index), None);
    }

    method TakeOption(argv: array<Arg>) returns (r: Report)
      requires HasChars(nextchar) && optind < argv.Length
      modifies this`optind, this`nextchar
      ensures var d := Decode(cfg, argv[old(optind)], old(nextchar).value, Following(argv[..], old(optind)));
        r == d.report && nextchar == d.nextchar && optind == old(optind) + d.used
    {
      hide DecodeLong, DecodeShort, LookupLong, IndexOf;
      var elem := argv[optind];
      if cfg.longopts.Some? && (At(elem, 0) == '-' && (At(elem, 1) == '-' || cfg.longOnly)) {
        var e := MyIndex(nextchar.value, '=');
        var found := FindLong(cfg.longopts.value, nextchar.value[..e]);
        match found {
          case Found(i) =>
            r := TakeLong(argv, i, e);
            return;
          case Ambiguous =>
            nextchar := Some("");
            optind := optind + 1;
            return Report(BAD_OPTION, None, None, None);
          case Unknown =>
            var known := MyIndex(cfg.optstring, nextchar.value[0]);
            if !cfg.longOnly || At(elem, 1) == '-' || known == |cfg.optstring| {
              nextchar := Some("");
              optind := optind + 1;
              return Report(BAD_OPTION, None, None, None);
            }
        }
      }
      r := TakeShort(argv);
    }

    // _getopt_internal up to the option to decode, or to EOF.
    method Locate(argv: array<Arg>) returns (eof: bool)
      requires Scanning(argv[..])
      modifies argv, this`optind, this`nextchar, this`firstNonopt, this`lastNonopt
      modifies this`done, this`skipped, this`options
      ensures eof ==> Finished(argv[..])
      ensures !eof ==> Scanning(argv[..]) && HasChars(nextchar)
    {
      hide Scan, ScanFrom, ScanOption;
      if HasChars(nextchar) {
        return false;
      }
      Permute(argv);
      Ahead(argv[..]);
      if optind != argv.Length && argv[optind] == "--" {
        EndOfOptions(argv);
      }
      Ahead(argv[..]);
      if optind == argv.Length {
        Conclude(argv[..]);
        if firstNonopt != lastNonopt {
          optind := firstNonopt;
        }
        return true;
      }
      EnterOption(argv[..]);
      nextchar := Some(FirstChars(cfg, argv[optind]));
      return false;
    }

    // The first call sets the marks behind the program name.
    method Begin(argv: array<Arg>)
      requires argv.Length >= 1 && Fresh(argv[..])
      modifies this
      ensures Scanning(argv[..]) && orig == old(orig) && reported == old(reported)
    {
      hide Scan, ScanFrom;
      firstNonopt, lastNonopt, optind := 1, 1, 1;
      nextchar := None;
      done, skipped, options := [orig[0]], [], [];
      StartTally(argv[..]);
    }

    method DecodeOne(argv: array<Arg>) returns (report: Report)
      requires Scanning(argv[..]) && HasChars(nextchar)
      modifies this`optind, this`nextchar, this`options, this`reported
      ensures Scanning(argv[..]) && reported == old(reported) + [report]
    {
      hide Scan, Decode, ScanFrom, ScanOption;
      Ahead(argv[..]);
      ghost var i := optind;
      Advance(argv[..], Decode(cfg, argv[optind], nextchar.value, Following(argv[..], optind)));
      report := TakeOption(argv);
      options := options + orig[i..optind];
      reported := reported + [report];
    }

    // _getopt_internal. None stands for EOF.
    method Next(argv: array<Arg>) returns (r: Option<Report>)
      requires argv.Length >= 1 && (Fresh(argv[..]) || Scanning(argv[..]))
      modifies argv, this
      ensures orig == old(orig)
      ensures r.Some? ==> Scanning(argv[..]) && reported == old(reported) + [r.value]
      ensures r.None? ==> Finished(argv[..]) && reported == old(reported)
    {
      hide Cut, Marked, Tallied, Finished;
      if optind == 0 {
        FreshOrScanning(argv[..]);
        Begin(argv);
      }
      var eof := Locate(argv);
      if eof {
        return None;
      }
      var report := DecodeOne(argv);
      return Some(report);
    }

    lemma FreshOrScanning(args: seq<Arg>)
      requires optind == 0 && (Fresh(args) || Scanning(args))
      ensures Fresh(args)
    {
    }

    // The caller's loop, until EOF.
    method ParseAll(argv: array<Arg>) returns (reports: seq<Report>)
      requires argv.Length >= 1 && Fresh(argv[..])
      modifies argv, this
      ensures var args := old(argv[..]);
        var p := Scan(cfg, args, 1);
        && argv[..] == [args[0]] + p.options + p.rest
        && optind == 1 + |p.options|
        && reports == p.reports
    {
      hide Scan;
      reports := [];
      while true
        invariant (Fresh(argv[..]) || Scanning(argv[..]))
        invariant orig == old(argv[..]) && reported == reports
        invariant |reported| <= |Scan(cfg, orig, 1).reports|
        decreases |Scan(cfg, orig, 1).reports| - |reported|
      {
        var r := Next(argv);
        if r.None? {
          return;
        }
        reports := reports + [r.value];
      }
    }
  }
}
