/** The converter's command-line option parser: options are registered as
    either boolean or value-taking, then the argument list is consumed from
    the front. A registered boolean option records true, a value option
    records the argument that follows it, and other words collect as
    trailing arguments until the next option clears them. An unknown
    dash-prefixed word or a value option without a value ends the parse
    with status -1 and clears every result. */
module CommandParser {

  /** The parser's state: the arguments still to consume, the registered
      options (true for a value option), the results so far and the
      option named in error hints. */
  datatype Parser = Parser(
    programName: string,
    args: seq<string>,
    options: map<string, bool>,
    boolResults: map<string, bool>,
    valueResults: map<string, string>,
    trailing: seq<string>,
    helpOption: string)

  /** A status (0 or -1) and the parser as the parse leaves it. */
  datatype Parsed = Parsed(status: int, parser: Parser)

  /** Whether a word looks like an option: its first character is a dash.
      The empty word does not. */
  predicate IsDash(s: string)
  {
    |s| > 0 && s[0] == '-'
  }

  /** `a` is the last `|a|` elements of `b`. */
  predicate IsSuffix<T(==)>(a: seq<T>, b: seq<T>)
  {
    |a| <= |b| && a == b[|b| - |a|..]
  }

  // --------------------------------------------------------------- set-up

  /** The parser for a program's argument vector: the first word names the
      program, the rest are to be parsed; nothing is registered yet. */
  function Create(argv: seq<string>): (p: Parser)
    requires |argv| >= 1
    ensures p.programName == argv[0] && p.args == argv[1..]
    ensures p.options == map[] && p.boolResults == map[] && p.valueResults == map[]
    ensures p.trailing == [] && p.helpOption == ""
  {
    Parser(argv[0], argv[1..], map[], map[], map[], [], "")
  }

  /** Registers `option` with the given kind unless it is registered
      already: the first registration keeps its kind. */
  function Register(p: Parser, option: string, takesValue: bool): (r: Parser)
    ensures option in r.options
    ensures option in p.options ==> r.options[option] == p.options[option]
    ensures option !in p.options ==> r.options[option] == takesValue
    ensures forall o :: o != option ==> (o in r.options <==> o in p.options)
    ensures forall o :: o != option && o in p.options ==> r.options[o] == p.options[o]
    ensures r.(options := p.options) == p
  {
    if option in p.options then p else p.(options := p.options[option := takesValue])
  }

  /** Registers a boolean option: a new name records no value. */
  function AddBoolOption(p: Parser, option: string): (r: Parser)
    ensures option in r.options && (option !in p.options ==> !r.options[option])
    ensures forall o :: o != option ==> (o in r.options <==> o in p.options)
    ensures r.(options := p.options) == p
  {
    Register(p, option, false)
  }

  /** The help option is registered as a boolean option and remembered
      for error hints; parsing gives it no other meaning. */
  function AddHelpOption(p: Parser, option: string): (r: Parser)
    ensures option in r.options && (option !in p.options ==> !r.options[option])
    ensures forall o :: o != option ==> (o in r.options <==> o in p.options)
    ensures r.helpOption == option
    ensures r.(options := p.options, helpOption := p.helpOption) == p
  {
    Register(p, option, false).(helpOption := option)
  }

  /** Registers a value option: a new name takes the next argument. */
  function AddValueOption(p: Parser, option: string): (r: Parser)
    ensures option in r.options && (option !in p.options ==> r.options[option])
    ensures forall o :: o != option ==> (o in r.options <==> o in p.options)
    ensures r.(options := p.options) == p
  {
    Register(p, option, true)
  }

  // -------------------------------------------------------------- queries

  /** The recorded result of a boolean option, or `default` when there is
      none. */
  function BoolOption(p: Parser, option: string, default: bool): (r: bool)
    ensures option !in p.boolResults ==> r == default
    ensures option in p.boolResults ==> r == p.boolResults[option]
  {
    if option in p.boolResults then p.boolResults[option] else default
  }

  /** The recorded value of a value option, or `default` when there is
      none. */
  function ValueOption(p: Parser, option: string, default: string): (r: string)
    ensures option !in p.valueResults ==> r == default
    ensures option in p.valueResults ==> r == p.valueResults[option]
  {
    if option in p.valueResults then p.valueResults[option] else default
  }

  /** The words collected since the last option. */
  function TrailingArgs(p: Parser): seq<string>
  {
    p.trailing
  }

  /** Forgets every result; the registered options and the arguments not
      yet consumed stay. */
  function ClearParsingData(p: Parser): (r: Parser)
    ensures r.boolResults == map[] && r.valueResults == map[] && r.trailing == []
    ensures r.(boolResults := p.boolResults, valueResults := p.valueResults, trailing := p.trailing) == p
  {
    p.(boolResults := map[], valueResults := map[], trailing := [])
  }

  // ---------------------------------------------------------------- parse

  /** What one step of the parse does with the first argument: go on with
      the rest, or fail leaving the given arguments unconsumed. */
  datatype Outcome = Continue(next: Parser) | Fail(rest: Parser)

  /** One step on the first argument. An unregistered word without a dash
      joins the trailing arguments; an unregistered dash word fails and
      stays in the list. A boolean option clears the trailing arguments and
      records true. A value option clears them too and, when the next word
      exists and has no dash, records it and consumes both; otherwise the
      option alone is consumed and the step fails. */
  function Step(p: Parser): (r: Outcome)
    requires p.args != []
    ensures r.Continue? ==> |r.next.args| < |p.args|
    ensures r.Continue? ==> r.next.(args := p.args, trailing := p.trailing,
                                    boolResults := p.boolResults, valueResults := p.valueResults) == p
    ensures r.Fail? ==> r.rest.(args := p.args) == p
    ensures r.Continue? && |r.next.args| + 1 == |p.args| ==> r.next.args == p.args[1..]
    ensures r.Continue? && |r.next.args| + 1 != |p.args| ==>
      |p.args| >= 2 && r.next.args == p.args[2..] && !IsDash(p.args[1])
      && p.args[0] in p.options && p.options[p.args[0]]
    ensures r.Fail? ==> IsSuffix(r.rest.args, p.args)
  {
    var a := p.args[0];
    if a !in p.options then
      if !IsDash(a) then Continue(p.(trailing := p.trailing + [a], args := p.args[1..]))
      else Fail(p)
    else if p.options[a] then
      if |p.args| >= 2 && !IsDash(p.args[1]) then
        Continue(p.(trailing := [], valueResults := p.valueResults[a := p.args[1]], args := p.args[2..]))
      else
        Fail(p.(args := p.args[1..]))
    else
      Continue(p.(trailing := [], boolResults := p.boolResults[a := true], args := p.args[1..]))
  }

  /** Steps until the arguments run out or a step fails; a failed parse
      clears all results. */
  function Parse(p: Parser): (r: Parsed)
    ensures r.status == 0 || r.status == -1
    ensures r.status == 0 ==> r.parser.args == []
    ensures r.status == -1 ==>
      r.parser.boolResults == map[] && r.parser.valueResults == map[] && r.parser.trailing == []
    ensures r.parser.options == p.options && r.parser.programName == p.programName
    ensures r.parser.helpOption == p.helpOption
    ensures IsSuffix(r.parser.args, p.args)
    decreases |p.args|
  {
    if p.args == [] then
      Parsed(0, p)
    else
      match Step(p)
      case Continue(q) =>
        var r := Parse(q);
        SuffixOfSuffix(r.parser.args, q.args, p.args);
        r
      case Fail(q) => Parsed(-1, ClearParsingData(q))
  }

  // ------------------------------------------------------------- outcomes

  /** A word the parser keeps as a trailing argument: unregistered and
      without a dash. */
  predicate IsWord(p: Parser, s: string)
  {
    s !in p.options && !IsDash(s)
  }

  /** With only words among the arguments, the parse succeeds, appends
      them all to the trailing arguments and records nothing. */
  lemma {:induction false} WordsAreTrailing(p: Parser)
    requires forall i :: 0 <= i < |p.args| ==> IsWord(p, p.args[i])
    ensures Parse(p) == Parsed(0, p.(args := [], trailing := p.trailing + p.args))
    decreases |p.args|
  {
    if p.args != [] {
      var q := Step(p).next;
      assert q == p.(trailing := p.trailing + [p.args[0]], args := p.args[1..]);
      WordsAreTrailing(q);
      assert q.trailing + q.args == p.trailing + p.args;
    }
  }

  /** A fresh parser with nothing registered succeeds exactly when no
      argument starts with a dash, and then every argument is trailing. */
  lemma FreshParse(argv: seq<string>)
    requires |argv| >= 1
    ensures Parse(Create(argv)).status == 0 <==> forall i :: 1 <= i < |argv| ==> !IsDash(argv[i])
    ensures Parse(Create(argv)).status == 0 ==> TrailingArgs(Parse(Create(argv)).parser) == argv[1..]
  {
    var p := Create(argv);
    if forall i :: 1 <= i < |argv| ==> !IsDash(argv[i]) {
      assert forall i :: 0 <= i < |p.args| ==> p.args[i] == argv[i + 1];
      WordsAreTrailing(p);
    } else {
      var i :| 1 <= i < |argv| && IsDash(argv[i]);
      assert p.args[i - 1] == argv[i];
      UnknownDashFails(p, i - 1, "", false, "");
    }
  }

  /** An unregistered dash word anywhere among the arguments makes the
      parse fail, since no value option consumes a dash word; afterwards
      every query answers its default. */
  lemma {:induction false} UnknownDashFails(p: Parser, i: nat, o: string, b: bool, v: string)
    requires i < |p.args| && IsDash(p.args[i]) && p.args[i] !in p.options
    ensures Parse(p).status == -1
    ensures BoolOption(Parse(p).parser, o, b) == b && ValueOption(Parse(p).parser, o, v) == v
    ensures TrailingArgs(Parse(p).parser) == []
    decreases |p.args|
  {
    if i > 0 {
      match Step(p)
      case Continue(q) =>
        var k := |p.args| - |q.args|;
        assert k == 2 ==> !IsDash(p.args[1]);
        assert q.args[i - k] == p.args[i];
        UnknownDashFails(q, i - k, o, b, v);
      case Fail(_) =>
    }
  }

  /** A dash-named value option that is last, or followed by a dash word,
      makes the parse fail; afterwards every query answers its default. */
  lemma {:induction false} MissingValueFails(p: Parser, i: nat, o: string, b: bool, v: string)
    requires i < |p.args| && IsDash(p.args[i]) && p.args[i] in p.options && p.options[p.args[i]]
    requires i + 1 == |p.args| || IsDash(p.args[i + 1])
    ensures Parse(p).status == -1
    ensures BoolOption(Parse(p).parser, o, b) == b && ValueOption(Parse(p).parser, o, v) == v
    ensures TrailingArgs(Parse(p).parser) == []
    decreases |p.args|
  {
    if i > 0 {
      match Step(p)
      case Continue(q) =>
        var k := |p.args| - |q.args|;
        assert k == 2 ==> !IsDash(p.args[1]);
        assert q.args[i - k] == p.args[i];
        assert i + 1 < |p.args| ==> q.args[i + 1 - k] == p.args[i + 1];
        MissingValueFails(q, i - k, o, b, v);
      case Fail(_) =>
    }
  }

  /** `v` directly follows an occurrence of `o` among `args` and has no
      dash: the pair a value option consumes. */
  predicate ValuePair(args: seq<string>, o: string, v: string)
  {
    !IsDash(v) && exists j :: 0 <= j < |args| - 1 && args[j] == o && args[j + 1] == v
  }

  /** A pair found after the first `k` arguments is a pair of the whole
      list. */
  lemma ValuePairInSuffix(args: seq<string>, k: nat, o: string, v: string)
    requires k <= |args| && ValuePair(args[k..], o, v)
    ensures ValuePair(args, o, v)
  {
    var j :| 0 <= j < |args[k..]| - 1 && args[k..][j] == o && args[k..][j + 1] == v;
    assert args[j + k] == o && args[j + k + 1] == v;
  }

  /** Once recorded, a true boolean result and a value result stay
      recorded for the rest of a successful parse. */
  lemma {:induction false} ResultsPersist(p: Parser, o: string)
    requires Parse(p).status == 0
    ensures o in p.boolResults && p.boolResults[o] ==> BoolOption(Parse(p).parser, o, false)
    ensures o in p.valueResults ==> o in Parse(p).parser.valueResults
    decreases |p.args|
  {
    if p.args != [] {
      ParseContinues(p);
      StepRecords(p);
      ResultsPersist(Step(p).next, o);
    }
  }

  /** After a successful parse, every dash-named boolean option among the
      arguments reads true and every dash-named value option has a value. */
  lemma {:induction false} DashOptionRecorded(p: Parser, i: nat)
    requires i < |p.args| && IsDash(p.args[i]) && p.args[i] in p.options
    requires Parse(p).status == 0
    ensures !p.options[p.args[i]] ==> BoolOption(Parse(p).parser, p.args[i], false)
    ensures p.options[p.args[i]] ==> p.args[i] in Parse(p).parser.valueResults
    decreases |p.args|
  {
    ParseContinues(p);
    var q := Step(p).next;
    StepShift(p);
    var k := |p.args| - |q.args|;
    if i < k {
      StepRecords(p);
      ResultsPersist(q, p.args[i]);
    } else {
      assert q.args[i - k] == p.args[i];
      DashOptionRecorded(q, i - k);
    }
  }

  /** What one successful step may leave in the results: each result is
      one from before, unchanged, or belongs to the stepped option, as
      true for a boolean option and as the next word for a value option. */
  lemma StepResults(p: Parser)
    requires p.args != [] && Step(p).Continue?
    ensures var q := Step(p).next; var a := p.args[0];
      forall o :: o in q.boolResults ==>
        (o in p.boolResults && q.boolResults[o] == p.boolResults[o])
        || (o == a && q.boolResults[o] && a in p.options && !p.options[a])
    ensures var q := Step(p).next; var a := p.args[0];
      forall o :: o in q.valueResults ==>
        (o in p.valueResults && q.valueResults[o] == p.valueResults[o])
        || (o == a && |p.args| >= 2 && q.valueResults[o] == p.args[1] && a in p.options && p.options[a]
            && !IsDash(p.args[1]) && q.args == p.args[2..])
  {
  }

  /** Conversely, what a successful step records: true for a boolean
      option, the next word for a value option, and nothing for a word. */
  lemma StepRecords(p: Parser)
    requires p.args != [] && Step(p).Continue?
    ensures var q := Step(p).next; var a := p.args[0];
      a in p.options && !p.options[a] ==>
        q.boolResults == p.boolResults[a := true] && q.valueResults == p.valueResults
    ensures var q := Step(p).next; var a := p.args[0];
      a in p.options && p.options[a] ==>
        |p.args| >= 2 && q.valueResults == p.valueResults[a := p.args[1]] && q.boolResults == p.boolResults
    ensures var q := Step(p).next; var a := p.args[0];
      a !in p.options ==> q.boolResults == p.boolResults && q.valueResults == p.valueResults
  {
  }

  /** A successful parse of a non-empty list takes a successful first
      step and then parses what that step leaves. */
  lemma ParseContinues(p: Parser)
    requires p.args != [] && Parse(p).status == 0
    ensures Step(p).Continue? && Parse(p) == Parse(Step(p).next)
  {
  }

  /** After a successful parse, a boolean result not carried over from
      before is true and names a registered boolean option among the
      arguments. */
  lemma {:induction false} BoolResultsSound(p: Parser)
    requires Parse(p).status == 0
    ensures var r := Parse(p).parser;
      forall o :: o in r.boolResults ==>
        (o in p.boolResults && r.boolResults[o] == p.boolResults[o])
        || (r.boolResults[o] && o in p.options && !p.options[o] && o in p.args)
    decreases |p.args|
  {
    if p.args != [] {
      ParseContinues(p);
      var q := Step(p).next;
      StepShift(p);
      StepResults(p);
      BoolResultsSound(q);
      var r := Parse(p).parser;
      var k := |p.args| - |q.args|;
      forall o | o in r.boolResults && o in q.args
        ensures o in p.args
      {
        var j :| 0 <= j < |q.args| && q.args[j] == o;
        assert p.args[j + k] == o;
      }
    }
  }

  /** After a successful parse, a value result not carried over from
      before belongs to a registered value option and is the word that
      followed it among the arguments. */
  lemma {:induction false} ValueResultsSound(p: Parser)
    requires Parse(p).status == 0
    ensures var r := Parse(p).parser;
      forall o :: o in r.valueResults ==>
        (o in p.valueResults && r.valueResults[o] == p.valueResults[o])
        || (o in p.options && p.options[o] && ValuePair(p.args, o, r.valueResults[o]))
    decreases |p.args|
  {
    if p.args != [] {
      ParseContinues(p);
      var q := Step(p).next;
      StepShift(p);
      StepResults(p);
      ValueResultsSound(q);
      var r := Parse(p).parser;
      var k := |p.args| - |q.args|;
      forall o | o in r.valueResults && ValuePair(q.args, o, r.valueResults[o])
        ensures ValuePair(p.args, o, r.valueResults[o])
      {
        ValuePairInSuffix(p.args, k, o, r.valueResults[o]);
      }
      if k == 2 {
        assert ValuePair(p.args, p.args[0], p.args[1]) by {
          assert p.args[0] == p.args[0] && p.args[1] == p.args[1];
        }
      }
    }
  }

  /** The option at `i` does not occur again after the word following
      it. */
  predicate NotRepeated(p: Parser, i: nat)
    requires i < |p.args|
  {
    forall j :: i + 2 <= j < |p.args| ==> p.args[j] != p.args[i]
  }

  /** A value result whose option does not occur among the remaining
      arguments comes out of a successful parse unchanged. */
  lemma {:induction false} ValueKept(p: Parser, o: string)
    requires Parse(p).status == 0 && o in p.valueResults
    requires forall j :: 0 <= j < |p.args| ==> p.args[j] != o
    ensures o in Parse(p).parser.valueResults && Parse(p).parser.valueResults[o] == p.valueResults[o]
    decreases |p.args|
  {
    if p.args != [] {
      ParseContinues(p);
      var q := Step(p).next;
      StepShift(p);
      StepRecords(p);
      var k := |p.args| - |q.args|;
      forall j | 0 <= j < |q.args|
        ensures q.args[j] != o
      {
        assert q.args[j] == p.args[j + k];
      }
      ValueKept(q, o);
    }
  }

  /** After a successful parse, a dash-named value option that does not
      occur again reads the word that follows it: of repeated occurrences
      the last one wins. */
  lemma {:induction false} LastValueWins(p: Parser, i: nat, d: string)
    requires i < |p.args| && IsDash(p.args[i]) && p.args[i] in p.options && p.options[p.args[i]]
    requires NotRepeated(p, i)
    requires Parse(p).status == 0
    ensures i + 1 < |p.args| && ValueOption(Parse(p).parser, p.args[i], d) == p.args[i + 1]
    decreases |p.args|
  {
    ParseContinues(p);
    var q := Step(p).next;
    StepShift(p);
    var k := |p.args| - |q.args|;
    if i == 0 {
      StepRecords(p);
      forall j | 0 <= j < |q.args|
        ensures q.args[j] != p.args[0]
      {
        assert q.args[j] == p.args[j + 2];
      }
      ValueKept(q, p.args[0]);
    } else {
      StepPastWord(p, i);
      StepKeepsUnrepeated(p, i);
      LastValueWins(q, i - k, d);
    }
  }

  /** A suffix of a suffix is a suffix. */
  lemma SuffixOfSuffix<T>(a: seq<T>, b: seq<T>, c: seq<T>)
    requires IsSuffix(a, b) && IsSuffix(b, c)
    ensures IsSuffix(a, c)
  {
    assert c[|c| - |b|..][|b| - |a|..] == c[|c| - |a|..];
  }

  /** A successful step drops one or two arguments (two only for a
      value option and a value without a dash) and keeps the options. */
  lemma StepShift(p: Parser)
    requires p.args != [] && Step(p).Continue?
    ensures var q := Step(p).next; var k := |p.args| - |q.args|;
      (k == 1 || k == 2) && (k == 2 ==> !IsDash(p.args[1]))
      && q.args == p.args[k..] && q.options == p.options
  {
  }

  /** What one successful step does to the trailing arguments: an option
      empties them, a word is appended to them. */
  lemma StepTrailing(p: Parser)
    requires p.args != [] && Step(p).Continue?
    ensures var q := Step(p).next;
      q.options == p.options
      && if p.args[0] in p.options then
           q.trailing == [] && q.args == p.args[if p.options[p.args[0]] then 2 else 1..]
         else q.trailing == p.trailing + [p.args[0]] && IsWord(p, p.args[0]) && q.args == p.args[1..]
  {
  }

  /** A successful step keeps the trailing arguments followed by the
      remaining arguments a suffix of what they were. */
  lemma StepKeepsSuffix(p: Parser)
    requires p.args != [] && Step(p).Continue?
    ensures var q := Step(p).next; IsSuffix(q.trailing + q.args, p.trailing + p.args)
  {
    var q := Step(p).next;
    StepTrailing(p);
    var k := |p.args| - |q.args|;
    if p.args[0] in p.options {
      assert q.trailing + q.args == (p.trailing + p.args)[|p.trailing| + k..];
    } else {
      assert q.trailing + q.args == p.trailing + p.args;
    }
  }

  /** After a successful parse the trailing arguments end the earlier
      trailing arguments followed by all the arguments. */
  lemma {:induction false} TrailingSuffix(p: Parser)
    requires Parse(p).status == 0
    ensures IsSuffix(Parse(p).parser.trailing, p.trailing + p.args)
    decreases |p.args|
  {
    if p.args != [] {
      ParseContinues(p);
      var q := Step(p).next;
      StepKeepsSuffix(p);
      TrailingSuffix(q);
      SuffixOfSuffix(Parse(q).parser.trailing, q.trailing + q.args, p.trailing + p.args);
    }
  }

  /** A successful step keeps the trailing arguments all words. */
  lemma StepKeepsWords(p: Parser)
    requires p.args != [] && Step(p).Continue?
    requires forall j :: 0 <= j < |p.trailing| ==> IsWord(p, p.trailing[j])
    ensures var q := Step(p).next;
      q.options == p.options && forall j :: 0 <= j < |q.trailing| ==> IsWord(q, q.trailing[j])
  {
    var q := Step(p).next;
    StepTrailing(p);
    forall j | 0 <= j < |q.trailing|
      ensures IsWord(q, q.trailing[j])
    {
      if j < |p.trailing| {
        assert q.trailing[j] == p.trailing[j];
      } else {
        assert q.trailing[j] == p.args[0];
      }
    }
  }

  /** After a successful parse that starts from trailing words only, every
      trailing argument is a word: unregistered and without a dash. */
  lemma {:induction false} TrailingAreWords(p: Parser)
    requires Parse(p).status == 0
    requires forall j :: 0 <= j < |p.trailing| ==> IsWord(p, p.trailing[j])
    ensures var t := Parse(p).parser.trailing; forall j :: 0 <= j < |t| ==> IsWord(p, t[j])
    decreases |p.args|
  {
    if p.args != [] {
      ParseContinues(p);
      StepKeepsWords(p);
      TrailingAreWords(Step(p).next);
    }
  }

  /** Where the arguments of the option at `i` end: after the option,
      and after its value for a value option. */
  function OptionEnd(p: Parser, i: nat): nat
    requires i < |p.args| && p.args[i] in p.options
  {
    if p.options[p.args[i]] then i + 2 else i + 1
  }

  /** No registered word among the arguments from `n` on. */
  predicate NoOptionsFrom(p: Parser, n: nat)
  {
    forall j :: n <= j < |p.args| ==> p.args[j] !in p.options
  }

  /** A step on a registered word consumes the option (and its value)
      and empties the trailing arguments. */
  lemma StepPastOption(p: Parser)
    requires p.args != [] && p.args[0] in p.options && Step(p).Continue?
    ensures OptionEnd(p, 0) <= |p.args|
    ensures Step(p).next.args == p.args[OptionEnd(p, 0)..] && Step(p).next.trailing == []
  {
  }

  /** A successful step leaves a dash-named option further on in place,
      shifted by what the step consumed, with the same words after it. */
  lemma StepPastWord(p: Parser, i: nat)
    requires 0 < i < |p.args| && IsDash(p.args[i]) && p.args[i] in p.options
    requires Step(p).Continue?
    ensures var q := Step(p).next; var k := |p.args| - |q.args|;
      k <= i && q.args[i - k] == p.args[i] && q.options == p.options
      && OptionEnd(q, i - k) + k == OptionEnd(p, i)
      && (OptionEnd(p, i) <= |p.args| ==> q.args[OptionEnd(q, i - k)..] == p.args[OptionEnd(p, i)..])
      && (i + 1 < |p.args| ==> q.args[i - k + 1] == p.args[i + 1])
  {
    StepShift(p);
  }

  /** ... and with nothing registered after it when there was nothing
      before the step. */
  lemma StepKeepsLast(p: Parser, i: nat)
    requires 0 < i < |p.args| && IsDash(p.args[i]) && p.args[i] in p.options
    requires Step(p).Continue? && NoOptionsFrom(p, OptionEnd(p, i))
    ensures var q := Step(p).next; var k := |p.args| - |q.args|;
      k <= i && NoOptionsFrom(q, OptionEnd(q, i - k))
  {
    var q := Step(p).next;
    StepShift(p);
    StepPastWord(p, i);
    var k := |p.args| - |q.args|;
    forall j | OptionEnd(q, i - k) <= j < |q.args|
      ensures q.args[j] !in q.options
    {
      assert q.args[j] == p.args[j + k];
    }
  }

  /** ... and not repeated after it when it was not repeated before the
      step. */
  lemma StepKeepsUnrepeated(p: Parser, i: nat)
    requires 0 < i < |p.args| && IsDash(p.args[i]) && p.args[i] in p.options
    requires Step(p).Continue? && NotRepeated(p, i)
    ensures var q := Step(p).next; var k := |p.args| - |q.args|;
      k <= i && NotRepeated(q, i - k)
  {
    var q := Step(p).next;
    StepShift(p);
    StepPastWord(p, i);
    var k := |p.args| - |q.args|;
    forall j | i - k + 2 <= j < |q.args|
      ensures q.args[j] != q.args[i - k]
    {
      assert q.args[j] == p.args[j + k];
    }
  }

  /** An option in first position empties the trailing arguments, so
      after a successful parse they end the words after it and, for a
      value option, after its value. */
  lemma FirstOptionTrailing(p: Parser)
    requires p.args != [] && p.args[0] in p.options
    requires Parse(p).status == 0
    ensures OptionEnd(p, 0) <= |p.args| && IsSuffix(Parse(p).parser.trailing, p.args[OptionEnd(p, 0)..])
  {
    ParseContinues(p);
    var q := Step(p).next;
    StepPastOption(p);
    TrailingSuffix(q);
    assert q.trailing + q.args == q.args;
  }

  /** After a successful parse, the trailing arguments all come after any
      dash-named option and, for a value option, after its value: an
      option empties the trailing list. */
  lemma {:induction false} TrailingAfterOption(p: Parser, i: nat)
    requires i < |p.args| && IsDash(p.args[i]) && p.args[i] in p.options
    requires Parse(p).status == 0
    ensures OptionEnd(p, i) <= |p.args| && IsSuffix(Parse(p).parser.trailing, p.args[OptionEnd(p, i)..])
    decreases |p.args|
  {
    if i == 0 {
      FirstOptionTrailing(p);
    } else {
      ParseContinues(p);
      var q := Step(p).next;
      var k := |p.args| - |q.args|;
      StepPastWord(p, i);
      TrailingAfterOption(q, i - k);
    }
  }

  /** When nothing registered follows an option in first position, a
      successful parse keeps exactly the words after it (and after its
      value) as the trailing arguments. */
  lemma FirstOptionLastTrailing(p: Parser)
    requires p.args != [] && p.args[0] in p.options && NoOptionsFrom(p, OptionEnd(p, 0))
    requires Parse(p).status == 0
    ensures OptionEnd(p, 0) <= |p.args| && TrailingArgs(Parse(p).parser) == p.args[OptionEnd(p, 0)..]
  {
    ParseContinues(p);
    var q := Step(p).next;
    StepPastOption(p);
    StepShift(p);
    var n := OptionEnd(p, 0);
    forall j | 0 <= j < |q.args|
      ensures IsWord(q, q.args[j])
    {
      assert q.args[j] == p.args[n + j];
      if IsDash(q.args[j]) {
        UnknownDashFails(q, j, "", false, "");
        assert false;
      }
    }
    WordsAreTrailing(q);
  }

  /** After a successful parse in which nothing registered follows the
      dash-named option at `i` (or its value), the trailing arguments are
      exactly the words after it. */
  lemma {:induction false} TrailingAfterLastOption(p: Parser, i: nat)
    requires i < |p.args| && IsDash(p.args[i]) && p.args[i] in p.options && NoOptionsFrom(p, OptionEnd(p, i))
    requires Parse(p).status == 0
    ensures OptionEnd(p, i) <= |p.args| && TrailingArgs(Parse(p).parser) == p.args[OptionEnd(p, i)..]
    decreases |p.args|
  {
    if i == 0 {
      FirstOptionLastTrailing(p);
    } else {
      ParseContinues(p);
      var q := Step(p).next;
      var k := |p.args| - |q.args|;
      StepPastWord(p, i);
      StepKeepsLast(p, i);
      TrailingAfterLastOption(q, i - k);
    }
  }

  // ----------------------------------------------------------------- help

  /** The help option recorded for error hints plays no part in the
      parse. */
  lemma {:induction false} ParseIgnoresHelp(p: Parser, h: string)
    ensures Parse(p.(helpOption := h)).status == Parse(p).status
    ensures Parse(p.(helpOption := h)).parser == Parse(p).parser.(helpOption := h)
    decreases |p.args|
  {
    if p.args != [] {
      match Step(p)
      case Continue(q) =>
        assert Step(p.(helpOption := h)) == Continue(q.(helpOption := h));
        ParseIgnoresHelp(q, h);
      case Fail(q) =>
        assert Step(p.(helpOption := h)) == Fail(q.(helpOption := h));
    }
  }

  /** Registering an option as the help option parses exactly as
      registering it as a boolean option: the parse neither stops nor
      fails on it, and it reads true afterwards like any boolean option. */
  lemma HelpIsOrdinary(p: Parser, o: string)
    ensures Parse(AddHelpOption(p, o)).status == Parse(AddBoolOption(p, o)).status
    ensures Parse(AddHelpOption(p, o)).parser == Parse(AddBoolOption(p, o)).parser.(helpOption := o)
  {
    ParseIgnoresHelp(AddBoolOption(p, o), o);
  }
}
