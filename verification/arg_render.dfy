// What Arg_parser accepts, as a printer: every way of writing an option down,
// and the command lines that consist of such forms only.
module ArgRendering {
  import Prelude
  import opened ArgParsers

  // The last letter of a cluster: alone, with the argument attached, or with the
  // argument in the next element.
  datatype Last = Bare(code: char) | Attached(code: char, text: string) | Separate(code: char, text: string)

  datatype Item =
    | Operand(text: string)
    | LongFlag(name: string)
    | LongEqual(name: string, text: string)
    | LongNext(name: string, text: string)
    | Cluster(flags: string, last: Last)

  function LastText(last: Last): string {
    if last.Attached? then [last.code] + last.text else [last.code]
  }

  function Render(item: Item): seq<string> {
    match item
    case Operand(text) => [text]
    case LongFlag(name) => ["--" + name]
    case LongEqual(name, text) => ["--" + name + "=" + text]
    case LongNext(name, text) => ["--" + name, text]
    case Cluster(flags, last) =>
      ["-" + flags + LastText(last)] + (if last.Separate? then [last.text] else [])
  }

  function RenderAll(items: seq<Item>): seq<string> {
    if items == [] then [] else Render(items[0]) + RenderAll(items[1..])
  }

  // ------------------------------------------------- what the table must allow

  predicate Short(options: Options, c: char) { CodeIndex(options, c as int, 0) < |options| }

  function ShortHasArg(options: Options, c: char): HasArg
    requires Short(options, c)
  {
    options[CodeIndex(options, c as int, 0)].hasArg
  }

  predicate ValidFlags(options: Options, flags: string) {
    forall i :: 0 <= i < |flags| ==> Short(options, flags[i]) && ShortHasArg(options, flags[i]) == No
  }

  predicate ValidLast(options: Options, last: Last) {
    && Short(options, last.code)
    && match last
       case Bare(c) => ShortHasArg(options, c) != Yes
       case Attached(c, text) => ShortHasArg(options, c) != No && text != ""
       case Separate(c, text) => ShortHasArg(options, c) == Yes && text != ""
  }

  // A name stands for an entry when the rule for long names finds one; it may
  // be abbreviated.
  predicate Long(options: Options, name: string) { '=' !in name && MatchLong(options, name).Found? }

  function LongEntry(options: Options, name: string): Option
    requires Long(options, name)
  {
    options[MatchLong(options, name).index]
  }

  predicate Valid(options: Options, item: Item) {
    match item
    case Operand(text) => !IsOption(text)
    case LongFlag(name) => Long(options, name) && name != "" && LongEntry(options, name).hasArg != Yes
    case LongEqual(name, text) =>
      && Long(options, name) && LongEntry(options, name).hasArg != No
      && (LongEntry(options, name).hasArg == Yes ==> text != "")
    case LongNext(name, text) =>
      Long(options, name) && name != "" && LongEntry(options, name).hasArg == Yes && text != ""
    case Cluster(flags, last) =>
      ValidFlags(options, flags) && ValidLast(options, last) && (flags + LastText(last))[0] != '-'
  }

  predicate AllValid(options: Options, items: seq<Item>) {
    forall i :: 0 <= i < |items| ==> Valid(options, items[i])
  }

  // ------------------------------------------------- the records they stand for

  function FlagRecords(flags: string): seq<Record> {
    if flags == "" then [] else [Record(flags[0] as int, "")] + FlagRecords(flags[1..])
  }

  function LastRecord(last: Last): Record {
    Record(last.code as int, if last.Bare? then "" else last.text)
  }

  function RecordsOf(options: Options, item: Item): seq<Record>
    requires Valid(options, item)
  {
    match item
    case Operand(text) => [Record(0, text)]
    case LongFlag(name) => [Record(LongEntry(options, name).code, "")]
    case LongEqual(name, text) => [Record(LongEntry(options, name).code, text)]
    case LongNext(name, text) => [Record(LongEntry(options, name).code, text)]
    case Cluster(flags, last) => FlagRecords(flags) + [LastRecord(last)]
  }

  function RecordsOfAll(options: Options, items: seq<Item>): seq<Record>
    requires AllValid(options, items)
  {
    if items == [] then [] else RecordsOf(options, items[0]) + RecordsOfAll(options, items[1..])
  }

  // --------------------------------------------------------- rendered, then read

  lemma {:induction false} NameEndsAt(opt: string, i: nat, end: nat)
    requires i <= end <= |opt|
    requires forall k :: i <= k < end ==> opt[k] != '='
    requires end == |opt| || opt[end] == '='
    ensures NameEnd(opt, i) == end
    decreases end - i
  {
    if i < end { NameEndsAt(opt, i + 1, end); }
  }

  // A long option as it is written, with or without '=' and a value.
  function Written(p: string, value: NextArg): string { "--" + p + (if value.Next? then "=" + value.text else "") }

  lemma WrittenParts(p: string, value: NextArg)
    requires '=' !in p
    ensures var opt, end := Written(p, value), |p| + 2;
      && NameEnd(opt, 2) == end && opt[2..end] == p
      && (if value.Next? then |opt| == end + 1 + |value.text| && opt[end + 1..] == value.text else |opt| == end)
  {
    var opt, end := Written(p, value), |p| + 2;
    assert opt[2..end] == p;
    assert forall k :: 2 <= k < end ==> opt[k] == p[k - 2];
    NameEndsAt(opt, 2, end);
  }

  lemma LongRead(options: Options, item: Item, arg: NextArg)
    requires Valid(options, item) && (item.LongFlag? || item.LongEqual? || item.LongNext?)
    requires item.LongNext? ==> arg == Next(item.text)
    ensures LongOf(Render(item)[0], arg, options) == Parsed(RecordsOf(options, item), |Render(item)|)
  {
    var value := if item.LongEqual? then Next(item.text) else Missing;
    WrittenParts(item.name, value);
    RenderIsWritten(item);
  }

  lemma RenderIsWritten(item: Item)
    requires item.LongFlag? || item.LongEqual? || item.LongNext?
    ensures Render(item)[0] == Written(item.name, if item.LongEqual? then Next(item.text) else Missing)
  {
    if item.LongEqual? { assert "--" + item.name + "=" + item.text == "--" + item.name + ("=" + item.text); }
    else { assert "--" + item.name + "" == "--" + item.name; }
  }

  lemma LastRead(options: Options, opt: string, cind: nat, last: Last, arg: NextArg)
    requires cind < |opt| && opt[cind..] == LastText(last)
    requires ValidLast(options, last) && (last.Separate? ==> arg == Next(last.text))
    ensures ShortOf(opt, cind, arg, options) == Parsed([LastRecord(last)], if last.Separate? then 2 else 1)
  {
    assert opt[cind] == opt[cind..][0] == last.code;
    if last.Attached? { assert opt[cind + 1..] == opt[cind..][1..] == last.text; }
  }

  lemma {:induction false} ClusterRead(
      options: Options, opt: string, cind: nat, flags: string, last: Last, arg: NextArg)
    requires cind < |opt| && opt[cind..] == flags + LastText(last)
    requires ValidFlags(options, flags) && ValidLast(options, last) && (last.Separate? ==> arg == Next(last.text))
    ensures ShortOf(opt, cind, arg, options)
         == Parsed(FlagRecords(flags) + [LastRecord(last)], if last.Separate? then 2 else 1)
    decreases |flags|
  {
    if flags == "" {
      assert flags + LastText(last) == LastText(last);
      LastRead(options, opt, cind, last, arg);
      assert [] + [LastRecord(last)] == [LastRecord(last)];
    } else {
      assert opt[cind] == opt[cind..][0] == flags[0];
      assert opt[cind + 1..] == opt[cind..][1..] == flags[1..] + LastText(last);
      ClusterRead(options, opt, cind + 1, flags[1..], last, arg);
      assert [Record(flags[0] as int, "")] + (FlagRecords(flags[1..]) + [LastRecord(last)])
          == FlagRecords(flags) + [LastRecord(last)];
    }
  }

  lemma ClusterItemRead(options: Options, item: Item, arg: NextArg)
    requires Valid(options, item) && item.Cluster?
    requires item.last.Separate? ==> arg == Next(item.last.text)
    ensures |Render(item)[0]| >= 2 && Render(item)[0][1] != '-'
    ensures ShortOf(Render(item)[0], 1, arg, options) == Parsed(RecordsOf(options, item), |Render(item)|)
  {
    var opt := Render(item)[0];
    assert opt[1..] == item.flags + LastText(item.last);
    assert opt[1] == opt[1..][0];
    ClusterRead(options, opt, 1, item.flags, item.last, arg);
  }

  // One item, whatever follows it.
  lemma ItemRead(options: Options, item: Item, rest: seq<string>)
    requires Valid(options, item)
    ensures InOrder(Render(item) + rest, options) == Prepend(RecordsOf(options, item), InOrder(rest, options))
  {
    var args := Render(item) + rest;
    assert args[|Render(item)|..] == rest;
    if !item.Operand? {
      assert args[0] == Render(item)[0];
      assert |Render(item)| == 2 ==> args[1] == Render(item)[1];
      if item.Cluster? {
        ClusterItemRead(options, item, Second(args));
      } else {
        LongRead(options, item, Second(args));
      }
    }
  }

  lemma {:induction false} ItemsRead(options: Options, items: seq<Item>, rest: seq<string>)
    requires AllValid(options, items)
    ensures InOrder(RenderAll(items) + rest, options) == Prepend(RecordsOfAll(options, items), InOrder(rest, options))
  {
    if items == [] {
      assert RenderAll(items) + rest == rest;
      var o := InOrder(rest, options);
      assert [] + o.records == o.records;
    } else {
      assert RenderAll(items) + rest == Render(items[0]) + (RenderAll(items[1..]) + rest);
      ItemRead(options, items[0], RenderAll(items[1..]) + rest);
      ItemsRead(options, items[1..], rest);
      PrependTwice(RecordsOf(options, items[0]), RecordsOfAll(options, items[1..]), InOrder(rest, options));
    }
  }

  // The end of a command line: nothing more, or "--" and any strings at all.
  datatype Tail = NoTail | Rest(operands: seq<string>)

  function RenderTail(tail: Tail): seq<string> { if tail.Rest? then ["--"] + tail.operands else [] }
  function TailRecords(tail: Tail): seq<Record> { if tail.Rest? then AsOperands(tail.operands) else [] }

  // Parsing what was rendered gives back exactly the records.
  lemma RenderedIsRead(options: Options, program: string, items: seq<Item>, tail: Tail)
    requires AllValid(options, items)
    ensures Meaning([program] + (RenderAll(items) + RenderTail(tail)), options)
         == InOrder(RenderAll(items) + RenderTail(tail), options)
    ensures InOrder(RenderAll(items) + RenderTail(tail), options)
         == Outcome(RecordsOfAll(options, items) + TailRecords(tail), "")
  {
    ItemsRead(options, items, RenderTail(tail));
    if tail.Rest? { assert RenderTail(tail)[1..] == tail.operands; }
    assert ([program] + (RenderAll(items) + RenderTail(tail)))[1..] == RenderAll(items) + RenderTail(tail);
  }

  // ------------------------------------------------------ read, then rendered

  lemma LongAccepted(options: Options, opt: string, arg: NextArg) returns (item: Item)
    requires |opt| > 2 && opt[..2] == "--" && LongOf(opt, arg, options).Parsed?
    ensures Valid(options, item) && Render(item)[0] == opt
    ensures |Render(item)| == LongOf(opt, arg, options).used
    ensures |Render(item)| == 2 ==> arg == Next(Render(item)[1])
    ensures !item.Operand? && !item.Cluster?
  {
    var end := NameEnd(opt, 2);
    NameEndIsFirst(opt, 2);
    var name := opt[2..end];
    if end < |opt| {
      item := LongEqual(name, opt[end + 1..]);
      assert opt == "--" + name + "=" + opt[end + 1..];
    } else if LongOf(opt, arg, options).used == 2 {
      item := LongNext(name, arg.text);
      assert opt == "--" + name;
    } else {
      item := LongFlag(name);
      assert opt == "--" + name;
    }
  }

  lemma {:induction false} NameEndIsFirst(opt: string, i: nat)
    requires i <= |opt|
    ensures forall k :: i <= k < NameEnd(opt, i) ==> opt[k] != '='
    ensures NameEnd(opt, i) < |opt| ==> opt[NameEnd(opt, i)] == '='
    decreases |opt| - i
  {
    if i < |opt| && opt[i] != '=' { NameEndIsFirst(opt, i + 1); }
  }

  lemma {:induction false} ClusterAccepted(options: Options, opt: string, cind: nat, arg: NextArg)
      returns (flags: string, last: Last)
    requires cind < |opt| && ShortOf(opt, cind, arg, options).Parsed?
    ensures opt[cind..] == flags + LastText(last)
    ensures ValidFlags(options, flags) && ValidLast(options, last)
    ensures ShortOf(opt, cind, arg, options).used == if last.Separate? then 2 else 1
    ensures last.Separate? ==> arg == Next(last.text)
    decreases |opt| - cind
  {
    var c := opt[cind];
    assert opt[cind..] == [c] + opt[cind + 1..];
    if cind + 1 == |opt| {
      flags, last := "", if ShortHasArg(options, c) == Yes then Separate(c, arg.text) else Bare(c);
    } else if ShortHasArg(options, c) != No {
      flags, last := "", Attached(c, opt[cind + 1..]);
    } else {
      var more;
      more, last := ClusterAccepted(options, opt, cind + 1, arg);
      flags := [c] + more;
      assert opt[cind..] == [c] + (more + LastText(last)) == flags + LastText(last);
    }
  }

  // What is accepted at the front of the arguments is one of the forms above.
  lemma OptionAccepted(options: Options, args: seq<string>) returns (item: Item)
    requires args != [] && IsOption(args[0]) && args[0] != "--" && OptionOf(args, options).Parsed?
    ensures Valid(options, item)
    ensures |Render(item)| == OptionOf(args, options).used && Render(item) == args[..|Render(item)|]
  {
    var opt := args[0];
    if opt[1] == '-' {
      assert |opt| == 2 ==> opt == "--";
      item := LongAccepted(options, opt, Second(args));
    } else {
      var flags, last := ClusterAccepted(options, opt, 1, Second(args));
      item := Cluster(flags, last);
      assert opt == "-" + opt[1..] == "-" + flags + LastText(last);
      assert opt[1] == opt[1..][0];
    }
  }

  lemma ItemAccepted(options: Options, args: seq<string>) returns (item: Item, used: nat)
    requires args != [] && args[0] != "--" && InOrder(args, options).error == ""
    ensures Valid(options, item) && 1 <= used <= |args|
    ensures Render(item) == args[..used] && InOrder(args[used..], options).error == ""
  {
    if IsOption(args[0]) {
      item := OptionAccepted(options, args);
      used := OptionOf(args, options).used;
    } else {
      item, used := Operand(args[0]), 1;
    }
  }

  lemma RenderedInFront(options: Options, item: Item, more: seq<Item>, tail: Tail)
    requires Valid(options, item) && AllValid(options, more)
    ensures AllValid(options, [item] + more)
    ensures RenderAll([item] + more) + RenderTail(tail) == Render(item) + (RenderAll(more) + RenderTail(tail))
  {
    assert ([item] + more)[1..] == more;
    Prelude.Regroup(Render(item), RenderAll(more), RenderTail(tail));
  }

  // A command line is accepted exactly if it was written with valid forms.
  lemma {:induction false} AcceptedIsRendered(options: Options, args: seq<string>)
      returns (items: seq<Item>, tail: Tail)
    requires InOrder(args, options).error == ""
    ensures AllValid(options, items)
    ensures args == RenderAll(items) + RenderTail(tail)
    decreases |args|
  {
    if args == [] {
      items, tail := [], NoTail;
    } else if args[0] == "--" {
      items, tail := [], Rest(args[1..]);
      assert args == ["--"] + args[1..];
    } else {
      var item, used := ItemAccepted(options, args);
      var more;
      more, tail := AcceptedIsRendered(options, args[used..]);
      items := [item] + more;
      RenderedInFront(options, item, more, tail);
      assert args == args[..used] + args[used..];
    }
  }

  // ------------------------------------------------------------ abbreviations

  predicate IsLong(item: Item) { item.LongFlag? || item.LongEqual? || item.LongNext? }

  ghost predicate AllMatchesAgree(options: Options, p: string, o: Option) {
    forall j :: 0 <= j < |options| && Matches(options[j], p) ==> Agree(options[j], o)
  }

  lemma PrefixHasNoEqual(full: string, p: string)
    requires p <= full && '=' !in full
    ensures '=' !in p
  {
    forall k | 0 <= k < |p| ensures p[k] != '=' { assert p[k] == full[k]; }
  }

  lemma AbbreviationFound(options: Options, full: string, p: string)
    requires Long(options, full) && p <= full
    ensures AllMatchesAgree(options, p, LongEntry(options, full)) ==>
      Long(options, p) && Agree(LongEntry(options, p), LongEntry(options, full))
    ensures !AllMatchesAgree(options, p, LongEntry(options, full))
            && (forall j :: 0 <= j < |options| ==> !Exact(options[j], p)) ==>
      MatchLong(options, p) == Ambiguous
  {
    var i := MatchLong(options, full).index;
    ScanIsTheRule(options, full, Found(i));
    ScanIsTheRule(options, p, MatchLong(options, p));
    assert Matches(options[i], p);
    assert '=' !in p;
  }

  // An abbreviation whose matches all agree parses like the full name. When they
  // do not, and no name is the abbreviation itself, it is refused as ambiguous.
  lemma AbbreviationMeansTheSame(options: Options, item: Item, p: string, rest: seq<string>)
    requires IsLong(item) && Valid(options, item) && p <= item.name && (p != "" || item.LongEqual?)
    requires forall j :: 0 <= j < |options| ==> !Exact(options[j], p)
    ensures InOrder(Render(item.(name := p)) + rest, options)
         == if AllMatchesAgree(options, p, LongEntry(options, item.name)) then InOrder(Render(item) + rest, options)
            else Outcome([], "option '" + Render(item.(name := p))[0] + "' is ambiguous")
  {
    var short := item.(name := p);
    AbbreviationFound(options, item.name, p);
    if AllMatchesAgree(options, p, LongEntry(options, item.name)) {
      ItemRead(options, item, rest);
      ItemRead(options, short, rest);
    } else {
      PrefixHasNoEqual(item.name, p);
      RenderIsWritten(short);
      WrittenParts(p, if item.LongEqual? then Next(item.text) else Missing);
      assert (Render(short) + rest)[0] == Render(short)[0];
    }
  }

  // ------------------------------------------------------------------- refusals

  // A long option whose name the rule does not find.
  lemma UnknownNameAnswers(options: Options, p: string, value: NextArg, arg: NextArg, m: LongMatch)
    requires '=' !in p && MatchLong(options, p) == m && !m.Found?
    ensures var opt := Written(p, value);
      LongOf(opt, arg, options)
      == Failed(if m == Unknown then "unrecognized option '" + opt + "'" else "option '" + opt + "' is ambiguous", [])
  {
    WrittenParts(p, value);
  }

  // One with '=' and a value behind it, by the entry that the rule finds.
  lemma ValuedOptionAnswers(options: Options, p: string, text: string, arg: NextArg, i: nat)
    requires '=' !in p && MatchLong(options, p) == Found(i)
    ensures var o, answer := options[i], LongOf(Written(p, Next(text)), arg, options);
      var named := "option '--" + o.name.text + "'";
      if o.hasArg == No then answer == Failed(named + " doesn't allow an argument", [Record(o.code, "")])
      else if o.hasArg == Yes && text == "" then answer == Failed(named + " requires an argument", [Record(o.code, "")])
      else answer == Parsed([Record(o.code, text)], 1)
  {
    WrittenParts(p, Next(text));
  }

  // One without.
  lemma PlainOptionAnswers(options: Options, p: string, arg: NextArg, i: nat)
    requires '=' !in p && MatchLong(options, p) == Found(i)
    ensures var o, answer := options[i], LongOf(Written(p, Missing), arg, options);
      if o.hasArg != Yes then answer == Parsed([Record(o.code, "")], 1)
      else if arg.Next? && arg.text != "" then answer == Parsed([Record(o.code, arg.text)], 2)
      else answer == Failed("option '--" + o.name.text + "' requires an argument", [Record(o.code, "")])
  {
    WrittenParts(p, Missing);
  }

  // What a cluster is answered at its first letter that is not a plain flag.
  lemma {:induction false} ShortAnswers(
      options: Options, opt: string, cind: nat, flags: string, c: char, tail: string, arg: NextArg)
    requires cind < |opt| && opt[cind..] == flags + ([c] + tail) && ValidFlags(options, flags)
    ensures var answer, made := ShortOf(opt, cind, arg, options), FlagRecords(flags);
      if !Short(options, c) then answer == Failed("invalid option -- " + [c], made)
      else if tail != "" && ShortHasArg(options, c) != No then answer == Parsed(made + [Record(c as int, tail)], 1)
      else if tail == "" && ShortHasArg(options, c) == Yes && (arg == Missing || arg.text == "") then
        answer == Failed("option requires an argument -- " + [c], made + [Record(c as int, "")])
      else if tail == "" && ShortHasArg(options, c) == Yes then answer == Parsed(made + [Record(c as int, arg.text)], 2)
      else if tail == "" then answer == Parsed(made + [Record(c as int, "")], 1)
      else true
    decreases |flags|
  {
    if flags == "" {
      assert opt[cind..] == [c] + tail && opt[cind] == opt[cind..][0];
      assert opt[cind + 1..] == opt[cind..][1..] == tail;
      assert forall r: seq<Record> :: [] + r == r;
    } else {
      assert opt[cind] == opt[cind..][0] == flags[0];
      assert opt[cind + 1..] == opt[cind..][1..] == flags[1..] + ([c] + tail);
      ShortAnswers(options, opt, cind + 1, flags[1..], c, tail, arg);
      var first, made := [Record(flags[0] as int, "")], FlagRecords(flags[1..]);
      Prelude.Regroup(first, made, [Record(c as int, tail)]);
      Prelude.Regroup(first, made, [Record(c as int, "")]);
      if arg.Next? { Prelude.Regroup(first, made, [Record(c as int, arg.text)]); }
    }
  }
}
