/** The time-range argument of a search: `A-B`, `A-`, `-B` or a single day
    `T`, each time in one of four layouts of the local time zone. */
module TimeRange {
  import opened Base
  import opened Text

  /** The layouts `parseTime` tries, in this order. */
  const TimeLayouts: seq<string> := ["2.1.2006_15:04", "2.1.2006_15", "2.1.2006", "15:04"]

  /** `24 * time.Hour`, in nanoseconds. */
  const Day: Duration := 24 * 60 * 60 * 1_000_000_000

  /** A parsed time without a date (year 0) is moved onto today's date. */
  function Anchored(lib: Lib, t: Instant): Instant
  {
    if lib.year(t) == 0 then lib.anchorToday(t) else t
  }

  /** The first of `layouts` that parses `arg`, anchored. */
  function FirstLayoutParse(lib: Lib, layouts: seq<string>, arg: string): Option<Instant>
  {
    if layouts == [] then None
    else match lib.parseLocal(layouts[0], arg)
      case Some(t) => Some(Anchored(lib, t))
      case None => FirstLayoutParse(lib, layouts[1..], arg)
  }

  /** What `parseTime` yields for `arg`, if it parses. */
  function ParseTimeSpec(lib: Lib, arg: string): Option<Instant>
  {
    FirstLayoutParse(lib, TimeLayouts, arg)
  }

  /** The layouts are tried in order and the first success wins: the text
      fails only if every layout fails, and otherwise its time is the one
      of the first layout that accepts it. */
  lemma {:induction false} FirstLayoutWins(lib: Lib, layouts: seq<string>, arg: string)
    ensures FirstLayoutParse(lib, layouts, arg).None? <==>
      forall i :: 0 <= i < |layouts| ==> lib.parseLocal(layouts[i], arg).None?
    ensures forall i ::
      (&& 0 <= i < |layouts|
       && lib.parseLocal(layouts[i], arg).Some?
       && (forall j :: 0 <= j < i ==> lib.parseLocal(layouts[j], arg).None?))
      ==> FirstLayoutParse(lib, layouts, arg) == Some(Anchored(lib, lib.parseLocal(layouts[i], arg).value))
  {
    if layouts != [] {
      FirstLayoutWins(lib, layouts[1..], arg);
      assert forall i :: 0 < i < |layouts| ==> layouts[i] == layouts[1..][i - 1];
    }
  }

  /** `parseTime`: try each layout in turn; on failure the zero time. */
  method ParseTime(lib: Lib, arg: string) returns (t: Instant, ok: bool)
    ensures ok == ParseTimeSpec(lib, arg).Some?
    ensures t == ParseTimeSpec(lib, arg).GetOr(Zero)
  {
    var formats := TimeLayouts;
    for i := 0 to |formats|
      invariant FirstLayoutParse(lib, formats[i..], arg) == ParseTimeSpec(lib, arg)
    {
      var parsed := lib.parseLocal(formats[i], arg);
      if parsed.Some? {
        t := parsed.value;
        if lib.year(t) == 0 {
          t := lib.anchorToday(t);
        }
        return t, true;
      }
      assert formats[i..][1..] == formats[i + 1..];
    }
    return Zero, false;
  }

  datatype RangeError = NoArguments | TimeParseError

  /** The start and end a search is bounded by, and whether the first
      argument failed to give them. */
  datatype Range = Range(start: Instant, end: Instant, err: Option<RangeError>)

  /** The `A-B` reading of a token: split at its first '-', and keep it when
      at least one side parses; a side that fails is the zero time at the
      start, now at the end. */
  function DashRange(lib: Lib, arg: string): Option<Range>
  {
    match FirstIndexIn(arg, {'-'})
    case None => None
    case Some(p) =>
      var end, start := ParseTimeSpec(lib, arg[p + 1..]), ParseTimeSpec(lib, arg[..p]);
      if start.Some? || end.Some? then Some(Range(start.GetOr(Zero), end.GetOr(lib.now), None))
      else None
  }

  /** What `parseStartEnd` returns. */
  function StartEnd(lib: Lib, args: seq<string>): (r: Range)
    ensures r.err == Some(NoArguments) <==> args == []
    ensures r.err.Some? ==> r.start == Zero && r.end == lib.now
    ensures r.err.None? <==> args != [] && (DashRange(lib, args[0]).Some? || ParseTimeSpec(lib, args[0]).Some?)
  {
    if args == [] then Range(Zero, lib.now, Some(NoArguments))
    else
      match DashRange(lib, args[0])
      case Some(r) => r
      case None =>
        match ParseTimeSpec(lib, args[0])
        case Some(t) => Range(t, t + Day, None)
        case None => Range(Zero, lib.now, Some(TimeParseError))
  }

  /** `parseStartEnd`. */
  method ParseStartEnd(lib: Lib, args: seq<string>) returns (r: Range)
    ensures r == StartEnd(lib, args)
  {
    if |args| == 0 {
      return Range(Zero, lib.now, Some(NoArguments));
    }
    var arg := args[0];
    // strings.SplitN(arg, "-", 2) gives two pieces iff arg holds a '-'
    var dash := FirstIndexIn(arg, {'-'});
    if dash.Some? {
      var end, endOk := ParseTime(lib, arg[dash.value + 1..]);
      var start, startOk := ParseTime(lib, arg[..dash.value]);
      if startOk || endOk {
        if !endOk {
          end := lib.now;
        }
        return Range(start, end, None);
      }
    }
    var start, startOk := ParseTime(lib, arg);
    if startOk {
      return Range(start, start + Day, None);
    }
    return Range(start, lib.now, Some(TimeParseError));
  }

  /** `A-`: from the time of A until now. */
  lemma OpenEndedRange(lib: Lib, a: string, t: Instant)
    requires forall i :: 0 <= i < |a| ==> a[i] != '-'
    requires ParseTimeSpec(lib, a) == Some(t)
    requires ParseTimeSpec(lib, "") == None
    ensures StartEnd(lib, [a + "-"]) == Range(t, lib.now, None)
  {
    FirstIndexAfter(a, '-', "", {'-'});
    assert a + "-" == a + ['-'] + "";
  }

  /** `-B`: from the zero time until the time of B. */
  lemma OpenStartRange(lib: Lib, b: string, t: Instant)
    requires ParseTimeSpec(lib, b) == Some(t)
    requires ParseTimeSpec(lib, "") == None
    ensures StartEnd(lib, ["-" + b]) == Range(Zero, t, None)
  {
    FirstIndexAfter("", '-', b, {'-'});
    assert "-" + b == "" + ['-'] + b;
  }

  /** `A-B`: from the time of A to the time of B, split at the first '-'. */
  lemma ClosedRange(lib: Lib, a: string, b: string, s: Instant, e: Instant)
    requires forall i :: 0 <= i < |a| ==> a[i] != '-'
    requires ParseTimeSpec(lib, a) == Some(s) && ParseTimeSpec(lib, b) == Some(e)
    ensures StartEnd(lib, [a + "-" + b]) == Range(s, e, None)
  {
    FirstIndexAfter(a, '-', b, {'-'});
    assert a + "-" + b == a + ['-'] + b;
  }

  /** `A-B` where only A parses: the failed end becomes now. */
  lemma DashRangeEndFails(lib: Lib, a: string, b: string, s: Instant)
    requires forall i :: 0 <= i < |a| ==> a[i] != '-'
    requires ParseTimeSpec(lib, a) == Some(s) && ParseTimeSpec(lib, b).None?
    ensures StartEnd(lib, [a + "-" + b]) == Range(s, lib.now, None)
  {
    FirstIndexAfter(a, '-', b, {'-'});
    assert a + "-" + b == a + ['-'] + b;
  }

  /** `A-B` where only B parses: the failed start becomes the zero time. */
  lemma DashRangeStartFails(lib: Lib, a: string, b: string, e: Instant)
    requires forall i :: 0 <= i < |a| ==> a[i] != '-'
    requires ParseTimeSpec(lib, a).None? && ParseTimeSpec(lib, b) == Some(e)
    ensures StartEnd(lib, [a + "-" + b]) == Range(Zero, e, None)
  {
    FirstIndexAfter(a, '-', b, {'-'});
    assert a + "-" + b == a + ['-'] + b;
  }

  /** `A-B` where neither side parses: the whole token is read as a single
      time, and failing that the range is (zero, now) with an error. */
  lemma DashRangeNeitherParses(lib: Lib, a: string, b: string)
    requires forall i :: 0 <= i < |a| ==> a[i] != '-'
    requires ParseTimeSpec(lib, a).None? && ParseTimeSpec(lib, b).None?
    ensures StartEnd(lib, [a + "-" + b]) ==
      match ParseTimeSpec(lib, a + "-" + b)
      case Some(t) => Range(t, t + Day, None)
      case None => Range(Zero, lib.now, Some(TimeParseError))
  {
    FirstIndexAfter(a, '-', b, {'-'});
    assert a + "-" + b == a + ['-'] + b;
  }

  /** A single time without '-' selects the 24 hours that follow it. */
  lemma SingleDayRange(lib: Lib, a: string, t: Instant)
    requires forall i :: 0 <= i < |a| ==> a[i] != '-'
    requires ParseTimeSpec(lib, a) == Some(t)
    ensures StartEnd(lib, [a]) == Range(t, t + Day, None)
    ensures StartEnd(lib, [a]).end - StartEnd(lib, [a]).start == Day
  {
  }
}
