/** The two filters a search applies to a stored command: free-text words
    against the command key, relational keywords against the measured
    fields. */
module Filters {
  import opened Base
  import opened Text
  import opened Keywords

  /** Every free-text word occurs in the command key. */
  predicate TextMatches(cmd: string, words: seq<string>) {
    forall i :: 0 <= i < |words| ==> Contains(cmd, words[i])
  }

  /** `findInCmdKey`: an AND of substring tests, left at the first word
      that is missing. */
  method FindInCmdKey(cmd: string, words: seq<string>) returns (found: bool)
    ensures found <==> TextMatches(cmd, words)
  {
    for i := 0 to |words|
      invariant TextMatches(cmd, words[..i])
    {
      if !Contains(cmd, words[i]) {
        return false;
      }
    }
    return true;
  }

  /** Free-text words combine by AND: a command matches a list of words iff
      it matches each part of the list on its own. */
  lemma TextMatchesAppend(cmd: string, a: seq<string>, b: seq<string>)
    ensures TextMatches(cmd, a + b) <==> TextMatches(cmd, a) && TextMatches(cmd, b)
  {
    if TextMatches(cmd, a) && TextMatches(cmd, b) {
      forall i | 0 <= i < |a + b| ensures Contains(cmd, (a + b)[i]) {
        if i >= |a| { assert (a + b)[i] == b[i - |a|]; }
      }
    }
    if TextMatches(cmd, a + b) {
      forall i | 0 <= i < |a| ensures Contains(cmd, a[i]) {
        assert (a + b)[i] == a[i];
      }
      forall i | 0 <= i < |b| ensures Contains(cmd, b[i]) {
        assert (a + b)[|a| + i] == b[i];
      }
    }
  }

  /** The recorded field a keyword name selects, if the name is known. */
  function FieldOf(info: CommandInfo, name: string): Option<int>
  {
    if name == "Walltime" then Some(info.wall)
    else if name == "Usertime" then Some(info.user)
    else if name == "Systemtime" then Some(info.system)
    else if name == "Exitcode" then Some(info.exitCode)
    else if name == "Signals" then Some(info.nsignals)
    else None
  }

  /** The names the matcher knows are exactly the names the keyword parser
      accepts. */
  lemma FieldOfKnownNames(info: CommandInfo, name: string)
    ensures FieldOf(info, name).Some? <==> name in DurationKwNames || name in IntKwNames
  {
  }

  /** Every keyword with a known name matches its field; keywords with an
      unknown name are ignored. */
  predicate InfoMatches(info: CommandInfo, keywords: seq<Keyword>) {
    forall i :: 0 <= i < |keywords| ==>
      match FieldOf(info, keywords[i].name)
      case None => true
      case Some(v) => Matches(keywords[i], v)
  }

  /** `findInCmdInfo`: an AND of relational tests, left at the first
      keyword that fails. The field's dynamic type must be the keyword's
      value type (the source asserts it), which every parsed keyword meets. */
  method FindInCmdInfo(info: CommandInfo, keywords: seq<Keyword>) returns (found: bool)
    requires forall i :: 0 <= i < |keywords| ==> WellTyped(keywords[i])
    ensures found <==> InfoMatches(info, keywords)
  {
    for i := 0 to |keywords|
      invariant InfoMatches(info, keywords[..i])
    {
      var kw := keywords[i];
      var comp: int;
      match kw.name {
        case "Walltime" => comp := info.wall;
        case "Usertime" => comp := info.user;
        case "Systemtime" => comp := info.system;
        case "Exitcode" => comp := info.exitCode;
        case "Signals" => comp := info.nsignals;
        case _ => continue;
      }
      if !Matches(kw, comp) {
        return false;
      }
    }
    return true;
  }

  /** Relational keywords combine by AND, and an empty list matches every
      record. */
  lemma InfoMatchesAppend(info: CommandInfo, a: seq<Keyword>, b: seq<Keyword>)
    ensures InfoMatches(info, [])
    ensures InfoMatches(info, a + b) <==> InfoMatches(info, a) && InfoMatches(info, b)
  {
    if InfoMatches(info, a + b) {
      forall i | 0 <= i < |a| ensures (a + b)[i] == a[i] { }
      forall i | 0 <= i < |b| ensures (a + b)[|a| + i] == b[i] { }
    }
    if InfoMatches(info, a) && InfoMatches(info, b) {
      forall i | |a| <= i < |a + b| ensures (a + b)[i] == b[i - |a|] { }
    }
  }

  /** The source's relational boundary: `Walltime>10s` rejects a wall time
      of exactly ten seconds and accepts one a millisecond longer;
      `Exitcode=0` accepts only exit code 0. */
  lemma RelationalBoundary(info: CommandInfo, code: int)
    ensures var gt := DurationKeyword("Walltime", 1, 10_000_000_000);
      && !InfoMatches(info.(wall := 10_000_000_000), [gt])
      && InfoMatches(info.(wall := 10_001_000_000), [gt])
    ensures InfoMatches(info.(exitCode := code), [IntKeyword("Exitcode", 0, 0)]) <==> code == 0
  {
    var gt := DurationKeyword("Walltime", 1, 10_000_000_000);
    assert !Matches(gt, 10_000_000_000);
    assert [gt][0] == gt;
    var eq := IntKeyword("Exitcode", 0, 0);
    assert [eq][0] == eq;
    assert FieldOf(info.(exitCode := code), eq.name) == Some(code);
  }
}
