/** The store key of a record: its start time rendered with the layout
    "2006-01-02 15:04:05.999", one space, then the command key. Because that
    layout drops trailing zeros of the fraction, the time text has no fixed
    width, and decoding guesses it by trying widths 23, 22 and 21. */
module DbKey {
  import opened Base
  import opened Text

  const DbTimeFormat: string := "2006-01-02 15:04:05.999"

  /** `len(dbTimeFormat)`. */
  const DbLenTime: nat := |DbTimeFormat|

  /** The widths `recoverDbKey` tries for the time text, in this order. */
  const KeyWidths: seq<nat> := [DbLenTime, DbLenTime - 1, DbLenTime - 2]

  /** Length of "2006-01-02 15:04:05", the time text up to its seconds. */
  const SecondsWidth: nat := 19

  /** `makeCmdKey`: the argument vector joined by single spaces. Every
      argument occurs in the key, and the key splits back at its spaces
      into the arguments when none of them holds a space. */
  function MakeCmdKey(args: seq<string>): (r: string)
    ensures forall i :: 0 <= i < |args| ==> Contains(r, args[i])
    ensures args != [] && (forall k, i :: 0 <= k < |args| && 0 <= i < |args[k]| ==> args[k][i] != ' ') ==>
      SplitAt(r, {' '}) == args
  {
    assert forall i :: 0 <= i < |args| ==> Contains(Join(args, " "), args[i]) by {
      forall i | 0 <= i < |args| ensures Contains(Join(args, " "), args[i]) {
        JoinContainsEach(args, " ", i);
      }
    }
    assert args != [] && (forall k, i :: 0 <= k < |args| && 0 <= i < |args[k]| ==> args[k][i] != ' ') ==>
      SplitAt(Join(args, " "), {' '}) == args by {
      if args != [] && (forall k, i :: 0 <= k < |args| && 0 <= i < |args[k]| ==> args[k][i] != ' ') {
        SplitJoin(args, ' ');
      }
    }
    Join(args, " ")
  }

  /** `makeDbKey`: the start's time text, one space, then the command key. */
  function MakeDbKey(lib: Lib, info: CommandInfo): (r: string)
    ensures var text := lib.format(info.start, DbTimeFormat);
      && |r| == |text| + 1 + |info.cmdKey|
      && r[..|text|] == text && r[|text|] == ' ' && r[|text| + 1..] == info.cmdKey
  {
    lib.format(info.start, DbTimeFormat) + " " + info.cmdKey
  }

  /** Keys that `recoverDbKey` can slice without a run-time panic: at least
      23 bytes, and 24 when the first 23 parse (the command then starts at
      byte 24). */
  predicate KeyInBounds(lib: Lib, key: string) {
    |key| >= DbLenTime && (|key| == DbLenTime ==> lib.parse(DbTimeFormat, key).None?)
  }

  /** The first of `widths` whose prefix of `key` parses as a time. */
  function FirstParsingWidth(lib: Lib, key: string, widths: seq<nat>): (r: Option<nat>)
    requires forall i :: 0 <= i < |widths| ==> widths[i] <= |key|
    ensures r.Some? ==> r.value <= |key| && lib.parse(DbTimeFormat, key[..r.value]).Some?
    ensures r.Some? ==> exists i :: (
      && 0 <= i < |widths| && widths[i] == r.value
      && forall j :: 0 <= j < i ==> lib.parse(DbTimeFormat, key[..widths[j]]).None?)
    ensures r.None? <==> forall i :: 0 <= i < |widths| ==> lib.parse(DbTimeFormat, key[..widths[i]]).None?
  {
    if widths == [] then None
    else if lib.parse(DbTimeFormat, key[..widths[0]]).Some? then Some(widths[0])
    else
      var r := FirstParsingWidth(lib, key, widths[1..]);
      assert forall i :: 0 < i < |widths| ==> widths[i] == widths[1..][i - 1];
      r
  }

  /** The widths list unrolled: 23 first, then 22, then 21. */
  lemma KeyWidthsUnrolled(lib: Lib, key: string)
    requires |key| >= DbLenTime
    ensures FirstParsingWidth(lib, key, KeyWidths) ==
      if lib.parse(DbTimeFormat, key[..DbLenTime]).Some? then Some(DbLenTime)
      else if lib.parse(DbTimeFormat, key[..DbLenTime - 1]).Some? then Some(DbLenTime - 1)
      else if lib.parse(DbTimeFormat, key[..DbLenTime - 2]).Some? then Some(DbLenTime - 2)
      else None
  {
    var w1, w2 := [DbLenTime - 1, DbLenTime - 2], [DbLenTime - 2];
    assert KeyWidths[1..] == w1 && w1[1..] == w2 && w2[1..] == [];
    assert FirstParsingWidth(lib, key, w2) ==
      if lib.parse(DbTimeFormat, key[..DbLenTime - 2]).Some? then Some(DbLenTime - 2) else None;
    assert FirstParsingWidth(lib, key, w1) ==
      if lib.parse(DbTimeFormat, key[..DbLenTime - 1]).Some? then Some(DbLenTime - 1)
      else FirstParsingWidth(lib, key, w2);
  }

  /** What decoding a stored key comes to: its start and command; an error
      when none of the tried widths parses; or a run-time panic when a slice
      of the key is out of range. */
  datatype KeyOutcome = Decoded(start: Instant, cmd: string) | Malformed | SlicePanic

  /** The outcome of decoding `key`: the time is the prefix of the first
      width (23, 22, 21) that parses, the command the bytes after the space
      that follows it. */
  function KeyFields(lib: Lib, key: string): (r: KeyOutcome)
    ensures r.SlicePanic? <==> !KeyInBounds(lib, key)
    ensures r.Malformed? <==> (
      && |key| >= DbLenTime
      && lib.parse(DbTimeFormat, key[..DbLenTime]).None?
      && lib.parse(DbTimeFormat, key[..DbLenTime - 1]).None?
      && lib.parse(DbTimeFormat, key[..DbLenTime - 2]).None?)
    ensures r.Decoded? ==> (
      && |key| - |r.cmd| - 1 in KeyWidths
      && r.cmd == key[|key| - |r.cmd|..]
      && lib.parse(DbTimeFormat, key[..|key| - |r.cmd| - 1]) == Some(r.start))
  {
    if |key| < DbLenTime then SlicePanic
    else
      assert |key| == DbLenTime ==> key[..DbLenTime] == key;
      if lib.parse(DbTimeFormat, key[..DbLenTime]).Some? then
        if |key| == DbLenTime then SlicePanic
        else Decoded(lib.parse(DbTimeFormat, key[..DbLenTime]).value, key[DbLenTime + 1..])
      else if lib.parse(DbTimeFormat, key[..DbLenTime - 1]).Some? then
        Decoded(lib.parse(DbTimeFormat, key[..DbLenTime - 1]).value, key[DbLenTime..])
      else if lib.parse(DbTimeFormat, key[..DbLenTime - 2]).Some? then
        Decoded(lib.parse(DbTimeFormat, key[..DbLenTime - 2]).value, key[DbLenTime - 1..])
      else Malformed
  }

  /** Decoding takes the first of the tried widths whose prefix parses. */
  lemma KeyFieldsFirstWidth(lib: Lib, key: string)
    requires |key| >= DbLenTime
    ensures KeyFields(lib, key) ==
      match FirstParsingWidth(lib, key, KeyWidths)
      case None => Malformed
      case Some(w) =>
        if |key| < w + 1 then SlicePanic
        else Decoded(lib.parse(DbTimeFormat, key[..w]).value, key[w + 1..])
  {
    KeyWidthsUnrolled(lib, key);
  }

  /** `recoverDbKey`, step by step as the source does it. A slice out of
      range is a run-time panic in the source; here it is an outcome. */
  method RecoverDbKey(lib: Lib, b: string) returns (r: KeyOutcome)
    ensures r == KeyFields(lib, b)
  {
    if |b| < DbLenTime {
      return SlicePanic;
    }
    KeyWidthsUnrolled(lib, b);
    var cmdIdx := DbLenTime + 1;
    var parsed := lib.parse(DbTimeFormat, b[..DbLenTime]);
    if parsed.None? {
      parsed := lib.parse(DbTimeFormat, b[..DbLenTime - 1]);
      cmdIdx := DbLenTime;
    }
    if parsed.None? {
      parsed := lib.parse(DbTimeFormat, b[..DbLenTime - 2]);
      cmdIdx := DbLenTime - 1;
    }
    if parsed.None? {
      return Malformed;
    }
    if |b| < cmdIdx {
      return SlicePanic;
    }
    return Decoded(parsed.value, b[cmdIdx..]);
  }

  /** An instant cut to whole milliseconds, what the ".999" layout keeps. */
  function Millis(t: Instant): Instant
  {
    t - t % 1_000_000
  }

  /** The width of the key layout's text for an instant with a four-digit
      year: 19 bytes up to the seconds, then a dot and the milliseconds
      without their trailing zeros, or nothing when they are all zero. */
  function TimeTextWidth(t: Instant): nat
  {
    var ms := t % 1_000_000_000 / 1_000_000;
    if ms == 0 then SecondsWidth
    else if ms % 100 == 0 then SecondsWidth + 2
    else if ms % 10 == 0 then SecondsWidth + 3
    else SecondsWidth + 4
  }

  /** The text's year has four digits (years 0 to 9999); other years are
      written wider or with a sign, and the layout does not read them back. */
  predicate FourDigitYear(text: string) {
    |text| > 4 && '0' <= text[0] <= '9' && text[4] == '-'
  }

  /** What Go's time package does with the key layout, as used here: a
      formatted instant with a four-digit year has the width above and
      parses back to that instant, cut to milliseconds; and a
      formatted instant followed by a space and any text does not parse,
      because text is left over after the layout. */
  ghost predicate KeyTimeLaws(lib: Lib) {
    && (forall t :: FourDigitYear(lib.format(t, DbTimeFormat)) ==>
          && |lib.format(t, DbTimeFormat)| == TimeTextWidth(t)
          && lib.parse(DbTimeFormat, lib.format(t, DbTimeFormat)) == Some(Millis(t)))
    && (forall t, rest :: lib.parse(DbTimeFormat, lib.format(t, DbTimeFormat) + " " + rest).None?)
  }

  /** Every prefix of a key longer than its time text and the space after
      it fails to parse. */
  lemma LongerPrefixesFail(lib: Lib, info: CommandInfo, v: nat)
    requires KeyTimeLaws(lib)
    requires |lib.format(info.start, DbTimeFormat)| < v <= |MakeDbKey(lib, info)|
    ensures lib.parse(DbTimeFormat, MakeDbKey(lib, info)[..v]).None?
  {
    var text := lib.format(info.start, DbTimeFormat);
    assert MakeDbKey(lib, info)[..v] == text + " " + info.cmdKey[..v - |text| - 1];
  }

  /** Round trip: the key of a record whose start has a four-digit year and
      is not on a whole second decodes to that start, cut to milliseconds, and the record's command key; unless the key is under
      23 bytes, when decoding panics. */
  lemma KeyRoundTrip(lib: Lib, info: CommandInfo)
    requires KeyTimeLaws(lib)
    requires FourDigitYear(lib.format(info.start, DbTimeFormat))
    requires info.start % 1_000_000_000 >= 1_000_000
    ensures KeyFields(lib, MakeDbKey(lib, info)) ==
      if |MakeDbKey(lib, info)| < DbLenTime then SlicePanic
      else Decoded(Millis(info.start), info.cmdKey)
  {
    var text := lib.format(info.start, DbTimeFormat);
    var key := MakeDbKey(lib, info);
    if |key| >= DbLenTime {
      var w := |text|;
      assert DbLenTime - 2 <= w <= DbLenTime;
      forall v | w < v <= |key| ensures lib.parse(DbTimeFormat, key[..v]).None? {
        LongerPrefixesFail(lib, info, v);
      }
      assert |key| == DbLenTime ==> key[..|key|] == key;
      KeyWidthsUnrolled(lib, key);
    }
  }

  /** A record whose start falls on a whole second renders a time text of
      only 19 bytes (the ".999" layout drops the fraction with its dot):
      none of the three tried widths can then parse, so its key never
      decodes, and with a command key of two bytes or less (`ls`, `df`) the
      key is under 23 bytes and decoding it panics. */
  lemma WholeSecondKeyUndecodable(lib: Lib, info: CommandInfo)
    requires KeyTimeLaws(lib)
    requires FourDigitYear(lib.format(info.start, DbTimeFormat))
    requires info.start % 1_000_000_000 < 1_000_000
    ensures KeyFields(lib, MakeDbKey(lib, info)) ==
      if |info.cmdKey| <= 2 then SlicePanic else Malformed
  {
    var key := MakeDbKey(lib, info);
    if |key| >= DbLenTime {
      forall v | SecondsWidth < v <= |key| ensures lib.parse(DbTimeFormat, key[..v]).None? {
        LongerPrefixesFail(lib, info, v);
      }
      assert |key| == DbLenTime ==> key[..|key|] == key;
      KeyWidthsUnrolled(lib, key);
    }
  }
}
