// systools/arg_parser.cpp: the command-line parser.
module ArgParsers {
  import opened Prelude

  datatype HasArg = No | Yes | Maybe
  datatype Name = NoName | Name(text: string)

  // The entries before the terminating one, whose code is 0.
  datatype Option = Option(code: int, name: Name, hasArg: HasArg)
  type Options = s: seq<Option> | forall i :: 0 <= i < |s| ==> s[i].code != 0 witness []

  // A non-option has code 0.
  datatype Record = Record(code: int, argument: string)

  datatype NextArg = Missing | Next(text: string)

  // ------------------------------------------------------- matching long names

  predicate Matches(o: Option, p: string) { o.name.Name? && p <= o.name.text }
  predicate Exact(o: Option, p: string) { o.name.Name? && o.name.text == p }
  predicate Agree(a: Option, b: Option) { a.code == b.code && a.hasArg == b.hasArg }

  datatype LongMatch = Found(index: nat) | Ambiguous | Unknown

  // The rule, over the set of matching entries: the first exact one; or else the
  // first one, provided that all of them agree.
  ghost predicate IsLongMatch(options: Options, p: string, m: LongMatch) {
    match m
    case Found(i) =>
      && i < |options|
      && ((Exact(options[i], p) && forall j :: 0 <= j < i ==> !Exact(options[j], p))
          || ((forall j :: 0 <= j < |options| ==> !Exact(options[j], p))
              && Matches(options[i], p) && (forall j :: 0 <= j < i ==> !Matches(options[j], p))
              && (forall j :: 0 <= j < |options| && Matches(options[j], p) ==> Agree(options[j], options[i]))))
    case Ambiguous =>
      && (forall j :: 0 <= j < |options| ==> !Exact(options[j], p))
      && exists i, j :: 0 <= i < |options| && 0 <= j < |options|
                        && Matches(options[i], p) && Matches(options[j], p) && !Agree(options[i], options[j])
    case Unknown => forall j :: 0 <= j < |options| ==> !Matches(options[j], p)
  }

  lemma OneLongMatch(options: Options, p: string, m: LongMatch, n: LongMatch)
    requires IsLongMatch(options, p, m) && IsLongMatch(options, p, n)
    ensures m == n
  {
  }

  // The state of the loop of parse_long_option before entry i: `index` is the
  // first match so far, `ambig` whether another one differs from it.
  function MatchFrom(options: Options, p: string, i: nat, index: int, ambig: bool): LongMatch
    requires i <= |options| && -1 <= index < i
    decreases |options| - i
  {
    if i == |options| then (if ambig then Ambiguous else if index < 0 then Unknown else Found(index))
    else if !Matches(options[i], p) then MatchFrom(options, p, i + 1, index, ambig)
    else if Exact(options[i], p) then Found(i)
    else if index < 0 then MatchFrom(options, p, i + 1, i, ambig)
    else MatchFrom(options, p, i + 1, index, ambig || !Agree(options[index], options[i]))
  }

  function MatchLong(options: Options, p: string): (m: LongMatch)
    ensures m.Found? ==> m.index < |options| && options[m.index].name.Name?
  {
    MatchFromFollowsRule(options, p, 0, -1, false);
    MatchFrom(options, p, 0, -1, false)
  }

  ghost predicate ScannedSoFar(options: Options, p: string, i: nat, index: int, ambig: bool)
    requires i <= |options| && -1 <= index < i
  {
    && (forall j :: 0 <= j < i ==> !Exact(options[j], p))
    && (index < 0 ==> !ambig && forall j :: 0 <= j < i ==> !Matches(options[j], p))
    && (index >= 0 ==> Matches(options[index], p) && forall j :: 0 <= j < index ==> !Matches(options[j], p))
    && (index >= 0 && !ambig ==> forall j :: 0 <= j < i && Matches(options[j], p) ==> Agree(options[j], options[index]))
    && (ambig ==> exists j :: 0 <= j < i && Matches(options[j], p) && !Agree(options[index], options[j]))
  }

  lemma {:induction false} MatchFromFollowsRule(options: Options, p: string, i: nat, index: int, ambig: bool)
    requires i <= |options| && -1 <= index < i && ScannedSoFar(options, p, i, index, ambig)
    ensures IsLongMatch(options, p, MatchFrom(options, p, i, index, ambig))
    decreases |options| - i
  {
    if i < |options| {
      if !Matches(options[i], p) {
        MatchFromFollowsRule(options, p, i + 1, index, ambig);
      } else if !Exact(options[i], p) {
        if index < 0 {
          MatchFromFollowsRule(options, p, i + 1, i, ambig);
        } else {
          MatchFromFollowsRule(options, p, i + 1, index, ambig || !Agree(options[index], options[i]));
        }
      }
    }
  }

  // The first-match scan of the code and the rule over the set of matches agree.
  lemma ScanIsTheRule(options: Options, p: string, m: LongMatch)
    ensures IsLongMatch(options, p, m) <==> m == MatchLong(options, p)
  {
    MatchFromFollowsRule(options, p, 0, -1, false);
    if IsLongMatch(options, p, m) { OneLongMatch(options, p, m, MatchLong(options, p)); }
  }

  // The rule by the fields of the table: which names a text stands for, when it is
  // refused as ambiguous, and when it is unknown.
  lemma NamesByFields(options: Options, p: string)
    ensures MatchLong(options, p) == Unknown <==>
      forall i :: 0 <= i < |options| ==> options[i].name == NoName || !(p <= options[i].name.text)
    ensures MatchLong(options, p) == Ambiguous <==>
      && (forall i :: 0 <= i < |options| ==> options[i].name != Name(p))
      && exists i, j :: 0 <= i < |options| && 0 <= j < |options|
           && options[i].name.Name? && p <= options[i].name.text && options[j].name.Name? && p <= options[j].name.text
           && (options[i].code != options[j].code || options[i].hasArg != options[j].hasArg)
    ensures forall i: nat :: MatchLong(options, p) == Found(i) ==>
      && i < |options|
      && options[i].name.Name? && p <= options[i].name.text
      && (options[i].name.text == p || forall j :: 0 <= j < |options| ==> options[j].name != Name(p))
      && (forall j :: 0 <= j < i && options[j].name.Name? && p <= options[j].name.text ==>
            options[i].name.text == p && options[j].name.text != p)
  {
    var m := MatchLong(options, p);
    ScanIsTheRule(options, p, m);
    forall i | 0 <= i < |options| ensures Exact(options[i], p) <==> options[i].name == Name(p) {}
    forall i | 0 <= i < |options|
      ensures Matches(options[i], p) <==> options[i].name.Name? && p <= options[i].name.text {}
    if m.Found? { assert Matches(options[m.index], p); }
  }

  // ------------------------------------------------------------ one argument

  // `used` arguments were consumed; or the error, with the records already made.
  datatype Parsed = Parsed(records: seq<Record>, used: nat) | Failed(error: string, made: seq<Record>)

  // The end of the name of a long option: the first '=' from position i on.
  function NameEnd(opt: string, i: nat): (k: nat)
    requires i <= |opt|
    ensures i <= k <= |opt|
    decreases |opt| - i
  {
    if i == |opt| || opt[i] == '=' then i else NameEnd(opt, i + 1)
  }

  function LongOf(opt: string, arg: NextArg, options: Options): Parsed
    requires |opt| >= 2
  {
    var end := NameEnd(opt, 2);
    match MatchLong(options, opt[2..end])
    case Ambiguous => Failed("option '" + opt + "' is ambiguous", [])
    case Unknown => Failed("unrecognized option '" + opt + "'", [])
    case Found(i) =>
      var o := options[i];
      var text := o.name.text;
      if end < |opt| then
        if o.hasArg == No then Failed("option '--" + text + "' doesn't allow an argument", [Record(o.code, "")])
        else if o.hasArg == Yes && end + 1 == |opt| then
          Failed("option '--" + text + "' requires an argument", [Record(o.code, "")])
        else Parsed([Record(o.code, opt[end + 1..])], 1)
      else if o.hasArg == Yes then
        if arg == Missing || arg.text == "" then
          Failed("option '--" + text + "' requires an argument", [Record(o.code, "")])
        else Parsed([Record(o.code, arg.text)], 2)
      else Parsed([Record(o.code, "")], 1)
  }

  // The first entry with this code, or the length.
  function CodeIndex(options: Options, code: int, i: nat): (k: nat)
    requires i <= |options|
    ensures i <= k <= |options|
    ensures k < |options| ==> options[k].code == code
    ensures forall j :: i <= j < k ==> options[j].code != code
    decreases |options| - i
  {
    if i == |options| || options[i].code == code then i else CodeIndex(options, code, i + 1)
  }

  function Continued(made: seq<Record>, p: Parsed): Parsed {
    match p
    case Parsed(records, used) => Parsed(made + records, used)
    case Failed(error, more) => Failed(error, made + more)
  }

  lemma ContinuedTwice(made: seq<Record>, r: Record, p: Parsed)
    ensures Continued(made, Continued([r], p)) == Continued(made + [r], p)
  {
    var rest := if p.Parsed? then p.records else p.made;
    assert made + ([r] + rest) == (made + [r]) + rest;
  }

  function ShortOf(opt: string, cind: nat, arg: NextArg, options: Options): Parsed
    requires cind < |opt|
    decreases |opt| - cind
  {
    var c := opt[cind];
    var i := CodeIndex(options, c as int, 0);
    if i == |options| then Failed("invalid option -- " + [c], [])
    else
      var o := options[i];
      if cind + 1 < |opt| then
        if o.hasArg != No then Parsed([Record(c as int, opt[cind + 1..])], 1)
        else
          Continued([Record(c as int, "")], ShortOf(opt, cind + 1, arg, options))
      else if o.hasArg == Yes then
        if arg == Missing || arg.text == "" then
          Failed("option requires an argument -- " + [c], [Record(c as int, "")])
        else Parsed([Record(c as int, arg.text)], 2)
      else Parsed([Record(c as int, "")], 1)
  }

  // ----------------------------------------------------------- all arguments

  // An empty error means success.
  datatype Outcome = Outcome(records: seq<Record>, error: string)

  function AsOperands(args: seq<string>): seq<Record> {
    if args == [] then [] else [Record(0, args[0])] + AsOperands(args[1..])
  }

  predicate IsOption(a: string) { |a| >= 2 && a[0] == '-' }

  function Second(args: seq<string>): NextArg { if |args| >= 2 then Next(args[1]) else Missing }

  function OptionOf(args: seq<string>, options: Options): (r: Parsed)
    requires args != [] && IsOption(args[0]) && args[0] != "--"
    ensures r.Parsed? ==> 1 <= r.used <= 2 && r.used <= |args|
    ensures r.Parsed? ==> forall i :: 0 <= i < |r.records| ==> r.records[i].code != 0
    ensures r.Failed? ==> r.error != ""
  {
    if args[0][1] == '-' then LongOf(args[0], Second(args), options)
    else
      ShortConsumes(args[0], 1, Second(args), options);
      ShortOf(args[0], 1, Second(args), options)
  }

  lemma {:induction false} ShortConsumes(opt: string, cind: nat, arg: NextArg, options: Options)
    requires cind < |opt|
    ensures match ShortOf(opt, cind, arg, options)
      case Parsed(records, used) =>
        && (used == 1 || (used == 2 && arg.Next?))
        && (forall i :: 0 <= i < |records| ==> records[i].code != 0)
      case Failed(error, _) => error != ""
    decreases |opt| - cind
  {
    if cind + 1 < |opt| { ShortConsumes(opt, cind + 1, arg, options); }
  }

  function Prepend(records: seq<Record>, o: Outcome): Outcome {
    if o.error != "" then o else Outcome(records + o.records, "")
  }

  // The records in the order of the arguments.
  function InOrder(args: seq<string>, options: Options): Outcome
    decreases |args|
  {
    if args == [] then Outcome([], "")
    else if !IsOption(args[0]) then Prepend([Record(0, args[0])], InOrder(args[1..], options))
    else if args[0] == "--" then Outcome(AsOperands(args[1..]), "")
    else
      match OptionOf(args, options)
      case Failed(error, _) => Outcome([], error)
      case Parsed(records, used) => Prepend(records, InOrder(args[used..], options))
  }

  function OptionsIn(records: seq<Record>): seq<Record> {
    if records == [] then []
    else if records[0].code != 0 then [records[0]] + OptionsIn(records[1..])
    else OptionsIn(records[1..])
  }

  function OperandsIn(records: seq<Record>): seq<Record> {
    if records == [] then []
    else if records[0].code == 0 then [records[0]] + OperandsIn(records[1..])
    else OperandsIn(records[1..])
  }

  // Options first, then non-options, each group in its order.
  function Partition(records: seq<Record>): seq<Record> { OptionsIn(records) + OperandsIn(records) }

  // What a command line means: the program name is skipped.
  function Meaning(argv: seq<string>, options: Options): Outcome {
    if |argv| < 2 then Outcome([], "") else InOrder(argv[1..], options)
  }

  // --------------------------------------------------------------- the parser

  lemma {:induction false} OptionsInAppend(a: seq<Record>, b: seq<Record>)
    ensures OptionsIn(a + b) == OptionsIn(a) + OptionsIn(b)
  {
    if a == [] {
      assert a + b == b;
    } else {
      assert (a + b)[1..] == a[1..] + b;
      OptionsInAppend(a[1..], b);
      if a[0].code != 0 { Regroup([a[0]], OptionsIn(a[1..]), OptionsIn(b)); }
    }
  }

  lemma {:induction false} OperandsInAppend(a: seq<Record>, b: seq<Record>)
    ensures OperandsIn(a + b) == OperandsIn(a) + OperandsIn(b)
  {
    if a == [] {
      assert a + b == b;
    } else {
      assert (a + b)[1..] == a[1..] + b;
      OperandsInAppend(a[1..], b);
      if a[0].code == 0 { Regroup([a[0]], OperandsIn(a[1..]), OperandsIn(b)); }
    }
  }

  lemma {:induction false} AllOptions(a: seq<Record>)
    requires forall i :: 0 <= i < |a| ==> a[i].code != 0
    ensures OptionsIn(a) == a && OperandsIn(a) == []
  {
    if a != [] { AllOptions(a[1..]); }
  }

  lemma {:induction false} AllOperands(args: seq<string>)
    ensures OptionsIn(AsOperands(args)) == [] && OperandsIn(AsOperands(args)) == AsOperands(args)
  {
    if args != [] { AllOperands(args[1..]); }
  }

  lemma {:induction false} GroupsAreAll(records: seq<Record>)
    ensures multiset(OptionsIn(records)) + multiset(OperandsIn(records)) == multiset(records)
  {
    if records != [] {
      GroupsAreAll(records[1..]);
      assert records == [records[0]] + records[1..];
    }
  }

  // Nothing is lost or made up, and the two groups do not mix.
  lemma PartitionRearranges(records: seq<Record>)
    ensures multiset(Partition(records)) == multiset(records)
    ensures forall i :: 0 <= i < |Partition(records)| ==>
      (Partition(records)[i].code != 0 <==> i < |OptionsIn(records)|)
  {
    GroupsAreAll(records);
    OnlyOptions(records);
    OnlyOperands(records);
  }

  // Where a record goes.
  function Place(records: seq<Record>, i: nat): nat
    requires i < |records|
  {
    if records[i].code != 0 then |OptionsIn(records[..i])|
    else |OptionsIn(records)| + |OperandsIn(records[..i])|
  }

  lemma {:induction false} GroupsUpTo(records: seq<Record>, i: nat)
    requires i < |records|
    ensures records[i].code != 0 ==> OptionsIn(records[..i]) + [records[i]] <= OptionsIn(records)
    ensures records[i].code == 0 ==> OperandsIn(records[..i]) + [records[i]] <= OperandsIn(records)
  {
    var before, rest := records[..i], records[i..];
    assert records == before + rest;
    OptionsInAppend(before, rest);
    OperandsInAppend(before, rest);
  }

  lemma GroupGrows(records: seq<Record>, i: nat, j: nat)
    requires i < j < |records|
    ensures records[i].code != 0 ==> |OptionsIn(records[..i])| < |OptionsIn(records[..j])|
    ensures records[i].code == 0 ==> |OperandsIn(records[..i])| < |OperandsIn(records[..j])|
  {
    GroupsUpTo(records[..j], i);
    assert records[..j][..i] == records[..i];
  }

  // The partition is stable: each record stands at its place, options before the
  // others, and two of the same kind in their old order.
  lemma PartitionKeepsOrder(records: seq<Record>, i: nat, j: nat)
    requires i < |records| && j < |records|
    ensures Place(records, i) < |Partition(records)| && Partition(records)[Place(records, i)] == records[i]
    ensures i != j ==> (Place(records, i) < Place(records, j)
      <==> (if (records[i].code != 0) == (records[j].code != 0) then i < j else records[i].code != 0))
  {
    GroupsUpTo(records, i);
    GroupsUpTo(records, j);
    if i < j { GroupGrows(records, i, j); }
    if j < i { GroupGrows(records, j, i); }
  }

  lemma {:induction false} OnlyOptions(records: seq<Record>)
    ensures forall i :: 0 <= i < |OptionsIn(records)| ==> OptionsIn(records)[i].code != 0
  {
    if records != [] { OnlyOptions(records[1..]); }
  }

  lemma {:induction false} OnlyOperands(records: seq<Record>)
    ensures forall i :: 0 <= i < |OperandsIn(records)| ==> OperandsIn(records)[i].code == 0
  {
    if records != [] { OnlyOperands(records[1..]); }
  }

  lemma {:induction false} AsOperandsAppend(args: seq<string>, a: string)
    ensures AsOperands(args + [a]) == AsOperands(args) + [Record(0, a)]
  {
    if args == [] {
      assert args + [a] == [a];
      assert AsOperands([a][1..]) == [];
    } else {
      assert (args + [a])[1..] == args[1..] + [a];
      AsOperandsAppend(args[1..], a);
    }
  }

  lemma LastReplaced(data: seq<Record>, x: Record, r: Record)
    ensures (data + [x])[|data + [x]| - 1 := r] == data + [r]
  {
  }

  method FindCode(options: Options, code: int) returns (index: nat)
    ensures index == CodeIndex(options, code, 0)
  {
    index := 0;
    while index < |options| && options[index].code != code
      invariant index <= |options|
      invariant CodeIndex(options, code, 0) == CodeIndex(options, code, index)
    {
      index := index + 1;
    }
  }

  lemma PrependTwice(a: seq<Record>, b: seq<Record>, o: Outcome)
    ensures Prepend(a, Prepend(b, o)) == Prepend(a + b, o)
  {
    assert a + (b + o.records) == (a + b) + o.records;
  }

  // The records `seen` are what the arguments before `argind` say.
  ghost predicate ReadSoFar(argv: seq<string>, options: Options, argind: nat,
                            ended: bool, error: string, seen: seq<Record>)
    requires 1 <= argind <= |argv|
  {
    var meaning := InOrder(argv[1..], options);
    if error != "" then ended && meaning == Outcome([], error)
    else if ended then meaning == Prepend(seen, Outcome(AsOperands(argv[argind..]), ""))
    else meaning == Prepend(seen, InOrder(argv[argind..], options))
  }

  lemma ReadNothing(argv: seq<string>, options: Options)
    requires |argv| >= 2
    ensures ReadSoFar(argv, options, 1, false, "", [])
  {
    var o := InOrder(argv[1..], options);
    assert [] + o.records == o.records;
  }

  lemma ReadOperand(argv: seq<string>, options: Options, argind: nat, seen: seq<Record>)
    requires 1 <= argind < |argv| && !IsOption(argv[argind])
    requires ReadSoFar(argv, options, argind, false, "", seen)
    ensures ReadSoFar(argv, options, argind + 1, false, "", seen + [Record(0, argv[argind])])
  {
    assert argv[argind..][1..] == argv[argind + 1..];
    PrependTwice(seen, [Record(0, argv[argind])], InOrder(argv[argind + 1..], options));
  }

  lemma ReadTerminator(argv: seq<string>, options: Options, argind: nat, seen: seq<Record>)
    requires 1 <= argind < |argv| && argv[argind] == "--"
    requires ReadSoFar(argv, options, argind, false, "", seen)
    ensures ReadSoFar(argv, options, argind + 1, true, "", seen)
  {
    assert argv[argind..][1..] == argv[argind + 1..];
  }

  lemma ReadOption(argv: seq<string>, options: Options, argind: nat, seen: seq<Record>)
    requires 1 <= argind < |argv| && IsOption(argv[argind]) && argv[argind] != "--"
    requires ReadSoFar(argv, options, argind, false, "", seen)
    ensures match OptionOf(argv[argind..], options)
      case Parsed(records, used) => ReadSoFar(argv, options, argind + used, false, "", seen + records)
      case Failed(error, _) => ReadSoFar(argv, options, argind, true, error, seen)
  {
    var parsed := OptionOf(argv[argind..], options);
    if parsed.Parsed? {
      assert argv[argind..][parsed.used..] == argv[argind + parsed.used..];
      PrependTwice(seen, parsed.records, InOrder(argv[argind + parsed.used..], options));
    }
  }

  lemma ReadAll(argv: seq<string>, options: Options, argind: nat, ended: bool, seen: seq<Record>)
    requires 1 <= argind <= |argv| && |argv| >= 2 && (ended || argind == |argv|)
    requires ReadSoFar(argv, options, argind, ended, "", seen)
    ensures Meaning(argv, options) == Outcome(seen + AsOperands(argv[argind..]), "")
  {
  }

  // Where the records go: into `data`, or the non-options aside.
  ghost predicate Kept(inOrder: bool, seen: seq<Record>, data: seq<Record>, nonOptions: seq<string>) {
    if inOrder then data == seen && nonOptions == []
    else data == OptionsIn(seen) && AsOperands(nonOptions) == OperandsIn(seen)
  }

  lemma KeptOptions(inOrder: bool, seen: seq<Record>, data: seq<Record>, nonOptions: seq<string>, more: seq<Record>)
    requires Kept(inOrder, seen, data, nonOptions)
    requires forall i :: 0 <= i < |more| ==> more[i].code != 0
    ensures Kept(inOrder, seen + more, data + more, nonOptions)
  {
    OptionsInAppend(seen, more);
    OperandsInAppend(seen, more);
    AllOptions(more);
  }

  lemma ReadAndKeptOption(argv: seq<string>, options: Options, argind: nat,
                          inOrder: bool, seen: seq<Record>, data: seq<Record>, nonOptions: seq<string>)
    requires 1 <= argind < |argv| && IsOption(argv[argind]) && argv[argind] != "--"
    requires ReadSoFar(argv, options, argind, false, "", seen) && Kept(inOrder, seen, data, nonOptions)
    ensures match OptionOf(argv[argind..], options)
      case Parsed(records, used) =>
        && argind < argind + used <= |argv|
        && ReadSoFar(argv, options, argind + used, false, "", seen + records)
        && Kept(inOrder, seen + records, data + records, nonOptions)
      case Failed(error, _) => error != "" && ReadSoFar(argv, options, argind, true, error, seen)
  {
    ReadOption(argv, options, argind, seen);
    var parsed := OptionOf(argv[argind..], options);
    if parsed.Parsed? { KeptOptions(inOrder, seen, data, nonOptions, parsed.records); }
  }

  lemma OptionOfCase(argv: seq<string>, options: Options, argind: nat, arg: NextArg)
    requires 1 <= argind < |argv| && IsOption(argv[argind]) && argv[argind] != "--"
    requires arg == if argind + 1 < |argv| then Next(argv[argind + 1]) else Missing
    ensures OptionOf(argv[argind..], options)
         == if argv[argind][1] == '-' then LongOf(argv[argind], arg, options)
            else ShortOf(argv[argind], 1, arg, options)
  {
  }

  lemma KeptOperand(inOrder: bool, seen: seq<Record>, data: seq<Record>, nonOptions: seq<string>, a: string)
    requires Kept(inOrder, seen, data, nonOptions)
    ensures inOrder ==> Kept(inOrder, seen + [Record(0, a)], data + [Record(0, a)], nonOptions)
    ensures !inOrder ==> Kept(inOrder, seen + [Record(0, a)], data, nonOptions + [a])
  {
    AsOperandsAppend(nonOptions, a);
    OptionsInAppend(seen, [Record(0, a)]);
    OperandsInAppend(seen, [Record(0, a)]);
  }

  lemma KeptAll(inOrder: bool, seen: seq<Record>, data: seq<Record>, nonOptions: seq<string>, rest: seq<string>)
    requires Kept(inOrder, seen, data, nonOptions)
    ensures data + AsOperands(nonOptions) + AsOperands(rest)
         == if inOrder then seen + AsOperands(rest) else Partition(seen + AsOperands(rest))
  {
    OptionsInAppend(seen, AsOperands(rest));
    OperandsInAppend(seen, AsOperands(rest));
    AllOperands(rest);
    if !inOrder {
      assert OptionsIn(seen) + [] == OptionsIn(seen);
      Regroup(OptionsIn(seen), OperandsIn(seen), AsOperands(rest));
    } else {
      assert data + [] == data;
    }
  }

  // The letters before position `cind` made the records `made`.
  ghost predicate ReadTo(opt: string, arg: NextArg, options: Options, cind: nat, made: seq<Record>)
    requires cind < |opt| && |opt| >= 2
  {
    ShortOf(opt, 1, arg, options) == Continued(made, ShortOf(opt, cind, arg, options))
  }

  lemma ReadLetter(opt: string, arg: NextArg, options: Options, cind: nat, made: seq<Record>)
    requires cind < |opt| && |opt| >= 2 && ReadTo(opt, arg, options, cind, made)
    ensures var c, i := opt[cind], CodeIndex(options, opt[cind] as int, 0);
      var whole, more := ShortOf(opt, 1, arg, options), cind + 1 < |opt|;
      if i == |options| then whole == Failed("invalid option -- " + [c], made)
      else if more && options[i].hasArg != No then whole == Parsed(made + [Record(c as int, opt[cind + 1..])], 1)
      else if more then ReadTo(opt, arg, options, cind + 1, made + [Record(c as int, "")])
      else if options[i].hasArg != Yes then whole == Parsed(made + [Record(c as int, "")], 1)
      else if arg == Missing || arg.text == "" then
        whole == Failed("option requires an argument -- " + [c], made + [Record(c as int, "")])
      else whole == Parsed(made + [Record(c as int, arg.text)], 2)
  {
    if cind + 1 < |opt| {
      ContinuedTwice(made, Record(opt[cind] as int, ""), ShortOf(opt, cind + 1, arg, options));
    }
    assert made + [] == made;
  }

  class ArgParser {
    var error: string
    var data: seq<Record>

    method ParseLongOption(opt: string, arg: NextArg, options: Options, argind: nat) returns (ok: bool, argind': nat)
      requires |opt| >= 2 && error == ""
      modifies this
      ensures match LongOf(opt, arg, options)
        case Parsed(records, used) => ok && data == old(data) + records && error == "" && argind' == argind + used
        case Failed(e, made) => !ok && data == old(data) + made && error == e
    {
      argind' := argind;
      var len := 2;
      while len < |opt| && opt[len] != '='
        invariant 2 <= len <= |opt| && NameEnd(opt, 2) == NameEnd(opt, len)
      {
        len := len + 1;
      }
      var p := opt[2..len];
      var index, exact, ambig := -1, false, false;
      var i := 0;
      while i < |options| && !exact
        invariant 0 <= i <= |options|
        invariant !exact ==> -1 <= index < i && MatchLong(options, p) == MatchFrom(options, p, i, index, ambig)
        invariant exact ==> 0 <= index < |options| && MatchLong(options, p) == Found(index)
        decreases |options| - i, !exact
      {
        if options[i].name.Name? && p <= options[i].name.text {
          if |options[i].name.text| == |p| {
            index, exact := i, true;
          } else if index < 0 {
            index := i;
          } else if options[index].code != options[i].code || options[index].hasArg != options[i].hasArg {
            ambig := true;
          }
        }
        i := i + 1;
      }
      if ambig && !exact {
        error := "option '" + opt + "' is ambiguous";
        return false, argind';
      }
      if index < 0 {
        error := "unrecognized option '" + opt + "'";
        return false, argind';
      }
      argind' := argind + 1;
      data := data + [Record(options[index].code, "")];
      if len < |opt| {
        if options[index].hasArg == No {
          error := "option '--" + options[index].name.text + "' doesn't allow an argument";
          return false, argind';
        }
        if options[index].hasArg == Yes && len + 1 == |opt| {
          error := "option '--" + options[index].name.text + "' requires an argument";
          return false, argind';
        }
        data := data[|data| - 1 := Record(options[index].code, opt[len + 1..])];
        return true, argind';
      }
      if options[index].hasArg == Yes {
        if arg == Missing || arg.text == "" {
          error := "option '--" + options[index].name.text + "' requires an argument";
          return false, argind';
        }
        argind' := argind' + 1;
        data := data[|data| - 1 := Record(options[index].code, arg.text)];
      }
      return true, argind';
    }

    method ParseShortOption(opt: string, arg: NextArg, options: Options, argind: nat) returns (ok: bool, argind': nat)
      requires |opt| >= 2 && error == ""
      modifies this
      ensures match ShortOf(opt, 1, arg, options)
        case Parsed(records, used) => ok && data == old(data) + records && error == "" && argind' == argind + used
        case Failed(e, made) => !ok && data == old(data) + made && error == e
    {
      argind' := argind;
      var cind := 1;
      ghost var base, made: seq<Record> := data, [];
      while cind > 0
        invariant 0 <= cind < |opt| && error == "" && data == base + made
        invariant cind > 0 ==> argind' == argind && ReadTo(opt, arg, options, cind, made)
        invariant cind == 0 ==> argind' > argind && ShortOf(opt, 1, arg, options) == Parsed(made, argind' - argind)
        decreases if cind > 0 then |opt| - cind else 0
      {
        ReadLetter(opt, arg, options, cind, made);
        var c := opt[cind];
        var index := FindCode(options, c as int);
        if index == |options| {
          error := "invalid option -- " + [c];
          return false, argind';
        }
        data := data + [Record(c as int, "")];
        cind := cind + 1;
        if cind == |opt| {
          argind' := argind' + 1;
          cind := 0;
        }
        if options[index].hasArg != No && cind > 0 {
          LastReplaced(base + made, Record(c as int, ""), Record(c as int, opt[cind..]));
          Regroup(base, made, [Record(c as int, opt[cind..])]);
          data := data[|data| - 1 := Record(c as int, opt[cind..])];
          made := made + [Record(c as int, opt[cind..])];
          argind' := argind' + 1;
          cind := 0;
        } else if options[index].hasArg == Yes {
          if arg == Missing || arg.text == "" {
            Regroup(base, made, [Record(c as int, "")]);
            error := "option requires an argument -- " + [c];
            return false, argind';
          }
          LastReplaced(base + made, Record(c as int, ""), Record(c as int, arg.text));
          Regroup(base, made, [Record(c as int, arg.text)]);
          data := data[|data| - 1 := Record(c as int, arg.text)];
          made := made + [Record(c as int, arg.text)];
          argind' := argind' + 1;
          cind := 0;
        } else {
          Regroup(base, made, [Record(c as int, "")]);
          made := made + [Record(c as int, "")];
        }
      }
      return true, argind';
    }

    method ParseOption(argv: seq<string>, options: Options, argind: nat, arg: NextArg,
                       inOrder: bool, ghost seen: seq<Record>, ghost nonOptions: seq<string>)
        returns (ok: bool, argind': nat, ghost more: seq<Record>)
      requires 1 <= argind < |argv| && IsOption(argv[argind]) && argv[argind] != "--"
      requires arg == if argind + 1 < |argv| then Next(argv[argind + 1]) else Missing
      requires error == "" && ReadSoFar(argv, options, argind, false, "", seen) && Kept(inOrder, seen, data, nonOptions)
      modifies this
      ensures ok ==> argind < argind' <= |argv| && error == ""
      ensures ok ==> ReadSoFar(argv, options, argind', false, "", seen + more)
      ensures ok ==> Kept(inOrder, seen + more, data, nonOptions)
      ensures !ok ==> error != "" && ReadSoFar(argv, options, argind, true, error, seen)
    {
      ReadAndKeptOption(argv, options, argind, inOrder, seen, data, nonOptions);
      OptionOfCase(argv, options, argind, arg);
      ghost var parsed := OptionOf(argv[argind..], options);
      more := if parsed.Parsed? then parsed.records else [];
      if argv[argind][1] == '-' {
        ok, argind' := ParseLongOption(argv[argind], arg, options, argind);
      } else {
        ok, argind' := ParseShortOption(argv[argind], arg, options, argind);
      }
    }

    // Parses the whole command line, in order or with the non-options last.
    constructor (argv: seq<string>, options: Options, inOrder: bool)
      ensures error == Meaning(argv, options).error
      ensures data == if inOrder then Meaning(argv, options).records else Partition(Meaning(argv, options).records)
    {
      error, data := "", [];
      new;
      if |argv| < 2 {
        return;
      }
      ghost var seen: seq<Record> := [];
      var nonOptions: seq<string> := [];
      var argind := 1;
      var ended := false;
      ReadNothing(argv, options);
      while argind < |argv| && !ended
        invariant 1 <= argind <= |argv|
        invariant ReadSoFar(argv, options, argind, ended, error, seen)
        invariant error == "" ==> Kept(inOrder, seen, data, nonOptions)
        decreases |argv| - argind, !ended
      {
        var a := argv[argind];
        if IsOption(a) {
          var arg := if argind + 1 < |argv| then Next(argv[argind + 1]) else Missing;
          if a == "--" {
            ReadTerminator(argv, options, argind, seen);
            argind := argind + 1;
            ended := true;
          } else {
            var ok, argind';
            ghost var more;
            ok, argind', more := ParseOption(argv, options, argind, arg, inOrder, seen, nonOptions);
            if ok {
              argind := argind';
              seen := seen + more;
            } else {
              ended := true;
            }
          }
        } else {
          ReadOperand(argv, options, argind, seen);
          KeptOperand(inOrder, seen, data, nonOptions, a);
          if !inOrder {
            nonOptions := nonOptions + [a];
          } else {
            data := data + [Record(0, a)];
          }
          argind := argind + 1;
          seen := seen + [Record(0, a)];
        }
      }
      if error != "" {
        data := [];
        return;
      }
      ReadAll(argv, options, argind, ended, seen);
      KeptAll(inOrder, seen, data, nonOptions, argv[argind..]);
      data := data + AsOperands(nonOptions) + AsOperands(argv[argind..]);
    }
  }
}
