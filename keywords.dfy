/** Relational search keywords: `<name>(<|=|>)<value>` tokens such as
    `Walltime>10s` or `Exitcode=0`, how a token is recognised as one, and how
    the search arguments are split into keywords and free-text words. */
module Keywords {
  import opened Base
  import opened Text

  /** A parsed relational keyword. `relation` is negative for `<`, zero for
      `=` and positive for `>`; the two kinds differ in the type of `value`
      (an integer, or a duration in nanoseconds). */
  datatype Keyword =
    | IntKeyword(name: string, relation: int, value: int)
    | DurationKeyword(name: string, relation: int, value: Duration)

  datatype KeywordError =
    | ParseError(toParse: string, asType: string)
    | NoKeywordFound

  const Operators: set<char> := {'<', '=', '>'}

  const DurationKwNames: seq<string> := ["Walltime", "Systemtime", "Usertime"]

  const IntKwNames: seq<string> := ["Exitcode", "Signals"]

  /** Whether a recorded value `comp` satisfies the keyword: strictly less,
      equal, or strictly greater than the keyword's value, by the sign of its
      relation. `IntKeyword.Matches` and `DurationKeyword.Matches` are the
      same code and are both this function. */
  function Matches(kw: Keyword, comp: int): (r: bool)
    ensures kw.relation < 0 ==> (r <==> comp < kw.value)
    ensures kw.relation == 0 ==> (r <==> comp == kw.value)
    ensures kw.relation > 0 ==> (r <==> comp > kw.value)
  {
    if kw.relation < 0 then !(comp >= kw.value)
    else if kw.relation == 0 then !(comp != kw.value)
    else !(comp <= kw.value)
  }

  /** For every value and every recorded value, exactly one of the three
      relations `<`, `=`, `>` holds. */
  lemma MatchesTrichotomy(kw: Keyword, comp: int)
    ensures var lt, eq, gt := kw.(relation := -1), kw.(relation := 0), kw.(relation := 1);
      (Matches(lt, comp) || Matches(eq, comp) || Matches(gt, comp))
      && !(Matches(lt, comp) && Matches(eq, comp))
      && !(Matches(lt, comp) && Matches(gt, comp))
      && !(Matches(eq, comp) && Matches(gt, comp))
  {
  }

  /** The relation to which an operator character stands. */
  function RelationOf(op: char): int
  {
    if op == '<' then -1 else if op == '=' then 0 else 1
  }

  lemma ContainsChar(s: string, c: char)
    ensures Contains(s, [c]) <==> c in s
  {
    if c in s {
      var i :| 0 <= i < |s| && s[i] == c;
      assert OccursAt(s, [c], i);
    }
    if Contains(s, [c]) {
      var i :| 0 <= i <= |s| - 1 && OccursAt(s, [c], i);
      assert s[i] == s[i..i + 1][0];
    }
  }

  /** `parseKeywordRelation`: the first of `<`, `=`, `>` (in that order of
      preference) that the token contains anywhere decides the relation. */
  function ParseKeywordRelation(arg: string): (r: Result<int, KeywordError>)
    ensures r.Ok? <==> exists i :: 0 <= i < |arg| && arg[i] in Operators
    ensures r == Ok(-1) <==> '<' in arg
    ensures r == Ok(0) <==> '<' !in arg && '=' in arg
    ensures r == Ok(1) <==> '<' !in arg && '=' !in arg && '>' in arg
  {
    ContainsChar(arg, '<');
    ContainsChar(arg, '=');
    ContainsChar(arg, '>');
    if Contains(arg, "<") then Ok(-1)
    else if Contains(arg, "=") then Ok(0)
    else if Contains(arg, ">") then Ok(1)
    else Err(ParseError(arg, "(<|=|>)"))
  }

  /** In a token with a single operator, the relation is that operator's. */
  lemma RelationOfSingleOperator(arg: string, p: int)
    requires SingleSeparatorAt(arg, Operators, p)
    ensures ParseKeywordRelation(arg) == Ok(RelationOf(arg[p]))
  {
    assert arg[p] in arg;
    forall c | c in Operators && c != arg[p] ensures c !in arg {
    }
  }

  /** `isIn`: a linear search of `names` for `s`. */
  method IsIn(s: string, names: seq<string>) returns (found: bool)
    ensures found <==> s in names
  {
    for i := 0 to |names|
      invariant s !in names[..i]
    {
      if s == names[i] {
        return true;
      }
    }
    return false;
  }

  /** The token's text after its operator parses as the value type that
      the name before it selects. */
  predicate ValueParses(lib: Lib, name: string, text: string) {
    || (name in DurationKwNames && lib.parseDuration(text).Some?)
    || (name in IntKwNames && lib.atoi(text).Some?)
  }

  /** A duration keyword carries a duration field's name, an integer
      keyword an integer field's name: the dynamic types the matching of
      record fields asserts. */
  predicate WellTyped(kw: Keyword) {
    && (kw.name in DurationKwNames ==> kw.DurationKeyword?)
    && (kw.name in IntKwNames ==> kw.IntKeyword?)
  }

  /** `parseKeyword`: split the token at `<`, `=` and `>`; exactly two
      pieces, a known name and a value of the name's type make a keyword. */
  function ParseKeyword(lib: Lib, arg: string): (r: Result<Keyword, KeywordError>)
    ensures r.Ok? ==> WellTyped(r.value) && (r.value.name in DurationKwNames || r.value.name in IntKwNames)
    ensures r.Ok? ==> |SplitAt(arg, Operators)| == 2 && r.value.name == SplitAt(arg, Operators)[0]
    ensures r.Err? && r.error.ParseError? ==>
      |SplitAt(arg, Operators)| == 2 && r.error.toParse == SplitAt(arg, Operators)[1]
  {
    SplitPieces(arg, Operators);
    var s := SplitAt(arg, Operators);
    if |s| == 2 then
      var name, text := s[0], s[1];
      if name in DurationKwNames then
        match lib.parseDuration(text)
        case None => Err(ParseError(text, "time.Duration"))
        case Some(d) =>
          match ParseKeywordRelation(arg)
          case Err(e) => Err(e)
          case Ok(r) => Ok(DurationKeyword(name, r, d))
      else if name in IntKwNames then
        match lib.atoi(text)
        case None => Err(ParseError(text, "int"))
        case Some(i) =>
          match ParseKeywordRelation(arg)
          case Err(e) => Err(e)
          case Ok(r) => Ok(IntKeyword(name, r, i))
      else Err(NoKeywordFound)
    else Err(NoKeywordFound)
  }

  /** A token whose single operator is at `p`: the name is the text before
      it, the relation is the operator's, the value is the parsed text after
      it; a known name with an unparsable value is a ParseError naming that
      text, and an unknown name is no keyword. */
  lemma ParseKeywordAt(lib: Lib, arg: string, p: int)
    requires SingleSeparatorAt(arg, Operators, p)
    ensures var name, text, r := arg[..p], arg[p + 1..], ParseKeyword(lib, arg);
      && (r.Ok? <==> ValueParses(lib, name, text))
      && (r.Ok? ==> r.value.name == name && r.value.relation == RelationOf(arg[p]))
      && (r.Ok? && name in DurationKwNames ==> r.value == DurationKeyword(name, RelationOf(arg[p]), lib.parseDuration(text).value))
      && (r.Ok? && name in IntKwNames ==> r.value == IntKeyword(name, RelationOf(arg[p]), lib.atoi(text).value))
      && (r.Err? && (name in DurationKwNames || name in IntKwNames) ==> r.error == ParseError(text, if name in DurationKwNames then "time.Duration" else "int"))
      && (!(name in DurationKwNames || name in IntKwNames) ==> r == Err(NoKeywordFound))
  {
    SplitInTwo(arg, Operators);
    RelationOfSingleOperator(arg, p);
  }

  /** A token without exactly one operator is no keyword. */
  lemma ParseKeywordNoOperator(lib: Lib, arg: string)
    requires forall p :: !SingleSeparatorAt(arg, Operators, p)
    ensures ParseKeyword(lib, arg) == Err(NoKeywordFound)
  {
    SplitInTwo(arg, Operators);
  }

  /** A token is a keyword exactly when it has a single operator, a known
      name before it and a value of that name's type after it; every
      keyword obtained this way is well typed. */
  lemma ParseKeywordSucceeds(lib: Lib, arg: string)
    ensures ParseKeyword(lib, arg).Ok? <==>
      exists p :: SingleSeparatorAt(arg, Operators, p) && ValueParses(lib, arg[..p], arg[p + 1..])
    ensures ParseKeyword(lib, arg).Ok? ==> WellTyped(ParseKeyword(lib, arg).value)
    ensures ParseKeyword(lib, arg).Err? ==>
      (ParseKeyword(lib, arg).error.ParseError? <==>
        exists p :: SingleSeparatorAt(arg, Operators, p) && (arg[..p] in DurationKwNames || arg[..p] in IntKwNames))
  {
    if p :| SingleSeparatorAt(arg, Operators, p) {
      ParseKeywordAt(lib, arg, p);
      forall q | SingleSeparatorAt(arg, Operators, q) ensures q == p {
        SingleSeparatorUnique(arg, Operators, p, q);
      }
    } else {
      ParseKeywordNoOperator(lib, arg);
    }
  }

  /** The last element of a non-empty sequence. */
  function Last<T>(s: seq<T>): T
    requires s != []
  {
    s[|s| - 1]
  }

  /** The keywords `findSpecialKeywords` collects from `args`, in order. */
  function SpecialKeywords(lib: Lib, args: seq<string>): seq<Keyword>
  {
    if args == [] then []
    else
      SpecialKeywords(lib, args[..|args| - 1]) +
      match ParseKeyword(lib, Last(args))
      case Ok(kw) => [kw]
      case Err(_) => []
  }

  /** The tokens `findSpecialKeywords` leaves as free text, in order. */
  function FreeText(lib: Lib, args: seq<string>): seq<string>
  {
    if args == [] then []
    else
      FreeText(lib, args[..|args| - 1]) +
      match ParseKeyword(lib, Last(args))
      case Ok(_) => []
      case Err(_) => [Last(args)]
  }

  /** `findSpecialKeywords`: each token goes to the keywords when it parses
      as one, otherwise to the remaining free-text words. */
  method FindSpecialKeywords(lib: Lib, args: seq<string>) returns (keywords: seq<Keyword>, remaining: seq<string>)
    ensures keywords == SpecialKeywords(lib, args)
    ensures remaining == FreeText(lib, args)
  {
    keywords, remaining := [], [];
    for i := 0 to |args|
      invariant keywords == SpecialKeywords(lib, args[..i])
      invariant remaining == FreeText(lib, args[..i])
    {
      assert args[..i + 1][..i] == args[..i];
      var kw := ParseKeyword(lib, args[i]);
      if kw.Err? {
        remaining := remaining + [args[i]];
      } else {
        keywords := keywords + [kw.value];
      }
    }
    assert args[..|args|] == args;
  }

  /** Classifying a concatenation classifies each part in turn: both
      outputs keep the order of the input. */
  lemma {:induction false} ClassifyAppend(lib: Lib, a: seq<string>, b: seq<string>)
    ensures SpecialKeywords(lib, a + b) == SpecialKeywords(lib, a) + SpecialKeywords(lib, b)
    ensures FreeText(lib, a + b) == FreeText(lib, a) + FreeText(lib, b)
    decreases |b|
  {
    if b == [] {
      assert a + b == a;
    } else {
      var b' := b[..|b| - 1];
      assert (a + b)[..|a + b| - 1] == a + b';
      assert Last(a + b) == Last(b);
      ClassifyAppend(lib, a, b');
    }
  }

  /** Every token lands in exactly one of the two outputs. */
  lemma {:induction false} ClassifyPartition(lib: Lib, args: seq<string>)
    ensures |SpecialKeywords(lib, args)| + |FreeText(lib, args)| == |args|
  {
    if args != [] {
      ClassifyPartition(lib, args[..|args| - 1]);
    }
  }

  /** The free-text words are exactly the tokens that are not keywords. */
  lemma {:induction false} FreeTextMembers(lib: Lib, args: seq<string>)
    ensures forall a :: a in FreeText(lib, args) <==> a in args && ParseKeyword(lib, a).Err?
  {
    if args != [] {
      var init := args[..|args| - 1];
      FreeTextMembers(lib, init);
      assert args == init + [Last(args)];
    }
  }

  /** The keywords are exactly the parses of the tokens that are keywords,
      and every one of them is well typed. */
  lemma {:induction false} SpecialKeywordsMembers(lib: Lib, args: seq<string>)
    ensures forall kw :: kw in SpecialKeywords(lib, args) <==> exists a :: a in args && ParseKeyword(lib, a) == Ok(kw)
    ensures forall kw :: kw in SpecialKeywords(lib, args) ==> WellTyped(kw)
  {
    if args != [] {
      var init := args[..|args| - 1];
      SpecialKeywordsMembers(lib, init);
      assert args == init + [Last(args)];
      ParseKeywordSucceeds(lib, Last(args));
      forall kw | kw in SpecialKeywords(lib, args) ensures WellTyped(kw) {
        if kw !in SpecialKeywords(lib, init) {
          var a :| a in args && ParseKeyword(lib, a) == Ok(kw);
          ParseKeywordSucceeds(lib, a);
        }
      }
    }
  }
}
