/** The search over the store (`searchDb`) and the dump (`printDb`), over
    the sequence of entries the store's iterator yields. Each entry produces
    at most one event: a result line, or a warning that it was skipped. */
module Search {
  import opened Base
  import opened Keywords
  import opened Filters
  import opened TimeRange
  import opened DbKey

  datatype SkipReason = MalformedKey | MalformedValue

  /** One line of output: a matching record, with the start and command
      decoded from its key; a warning that an entry was skipped; or the
      run-time panic of a key slice out of range, which ends the program. */
  datatype Event =
    | Emitted(start: Instant, cmd: string, info: CommandInfo)
    | Skipped(reason: SkipReason)
    | Panicked

  /** The free-text words and relational keywords of a search. */
  datatype Query = Query(words: seq<string>, keywords: seq<Keyword>)

  /** The tokens a search reads its keywords from: all arguments when the
      first one gave no time range, otherwise the arguments after it. */
  function SearchTokens(lib: Lib, args: seq<string>): seq<string>
  {
    if StartEnd(lib, args).err.Some? then args else args[1..]
  }

  function QueryOf(lib: Lib, args: seq<string>): Query
  {
    var tokens := SearchTokens(lib, args);
    Query(FreeText(lib, tokens), SpecialKeywords(lib, tokens))
  }

  /** The output of one entry: its key is decoded (or it is skipped, or the
      program panics), its command must hold every word, only then is its
      value decoded (or it is skipped), and it is emitted when every keyword
      matches. */
  function Step(lib: Lib, q: Query, e: Entry): seq<Event>
  {
    match KeyFields(lib, e.key)
    case SlicePanic => [Panicked]
    case Malformed => [Skipped(MalformedKey)]
    case Decoded(t, cmd) =>
      if !TextMatches(cmd, q.words) then []
      else match lib.decodeValue(e.value)
        case None => [Skipped(MalformedValue)]
        case Some(info) => if InfoMatches(info, q.keywords) then [Emitted(t, cmd, info)] else []
  }

  /** The output ends with a panic. */
  predicate Halted(events: seq<Event>) {
    events != [] && events[|events| - 1] == Panicked
  }

  /** The output of a scan over `entries` where each entry yields
      `step(e)`, in scan order; nothing follows a panic. */
  function ScanWith(step: Entry -> seq<Event>, entries: seq<Entry>): seq<Event>
  {
    if entries == [] then []
    else
      var before := ScanWith(step, entries[..|entries| - 1]);
      if Halted(before) then before else before + step(entries[|entries| - 1])
  }

  /** `Step` for one query, as a value. */
  function StepOf(lib: Lib, q: Query): Entry -> seq<Event>
  {
    (e: Entry) => Step(lib, q, e)
  }

  /** The output of a query's scan over `entries`. */
  function Scan(lib: Lib, q: Query, entries: seq<Entry>): seq<Event>
  {
    ScanWith(StepOf(lib, q), entries)
  }

  /** What a search with arguments `args` prints over `entries`. */
  function Search(lib: Lib, args: seq<string>, entries: seq<Entry>): seq<Event>
  {
    Scan(lib, QueryOf(lib, args), entries)
  }

  /** The filter loop of `searchDb`: entries are the ones the store's
      iterator yields for the search's time range. */
  method SearchDb(lib: Lib, args: seq<string>, entries: seq<Entry>) returns (events: seq<Event>)
    ensures events == Search(lib, args, entries)
  {
    var range := ParseStartEnd(lib, args);
    var tokens: seq<string>;
    if range.err.Some? {
      tokens := args;
    } else {
      tokens := args[1..];
    }
    var special, words := FindSpecialKeywords(lib, tokens);
    SpecialKeywordsMembers(lib, tokens);
    ghost var q := Query(words, special);
    events := [];
    for i := 0 to |entries|
      invariant events == Scan(lib, q, entries[..i])
      invariant !Halted(events)
    {
      assert entries[..i + 1][..i] == entries[..i];
      var e := entries[i];
      var key := RecoverDbKey(lib, e.key);
      match key {
        case SlicePanic =>
          events := events + [Panicked];
          PanicEndsScan(StepOf(lib, q), entries, i + 1);
          return;
        case Malformed =>
          events := events + [Skipped(MalformedKey)];
        case Decoded(start, cmd) =>
          var hit := FindInCmdKey(cmd, words);
          if hit {
            var decoded := lib.decodeValue(e.value);
            if decoded.None? {
              events := events + [Skipped(MalformedValue)];
            } else {
              var matched := FindInCmdInfo(decoded.value, special);
              if matched {
                events := events + [Emitted(start, cmd, decoded.value)];
              }
            }
          }
      }
    }
    assert entries[..|entries|] == entries;
  }

  /** The loop of `printDb`: every entry whose key and value decode. */
  method DumpDb(lib: Lib, entries: seq<Entry>) returns (events: seq<Event>)
    ensures events == Scan(lib, Query([], []), entries)
  {
    ghost var q := Query([], []);
    events := [];
    for i := 0 to |entries|
      invariant events == Scan(lib, q, entries[..i])
      invariant !Halted(events)
    {
      assert entries[..i + 1][..i] == entries[..i];
      var key := RecoverDbKey(lib, entries[i].key);
      match key {
        case SlicePanic =>
          events := events + [Panicked];
          PanicEndsScan(StepOf(lib, q), entries, i + 1);
          return;
        case Malformed =>
          events := events + [Skipped(MalformedKey)];
        case Decoded(start, cmd) =>
          var decoded := lib.decodeValue(entries[i].value);
          if decoded.None? {
            events := events + [Skipped(MalformedValue)];
          } else {
            events := events + [Emitted(start, cmd, decoded.value)];
          }
      }
    }
    assert entries[..|entries|] == entries;
  }

  /** Scanning is entry by entry: the output of a concatenation is the
      output of its parts in order, unless the first part panics, so a bad
      entry never ends the scan and results keep the scan order. */
  lemma {:induction false} ScanAppend(step: Entry -> seq<Event>, a: seq<Entry>, b: seq<Entry>)
    ensures ScanWith(step, a + b) ==
      if Halted(ScanWith(step, a)) then ScanWith(step, a) else ScanWith(step, a) + ScanWith(step, b)
    decreases |b|
  {
    if b == [] {
      assert a + b == a;
    } else {
      var b', x := b[..|b| - 1], b[|b| - 1];
      assert b == b' + [x];
      assert a + b == (a + b') + [x];
      ScanAppend(step, a, b');
      ScanSnoc(step, a + b', x);
      ScanSnoc(step, b', x);
      HaltedSnoc(ScanWith(step, a), ScanWith(step, b'), ScanWith(step, a + b'), step(x));
    }
  }

  /** The step of `ScanAppend` on outputs alone: appending the output of
      one more entry after `sa + sb` is appending it after `sb`. */
  lemma HaltedSnoc(sa: seq<Event>, sb: seq<Event>, sab: seq<Event>, tail: seq<Event>)
    requires sab == if Halted(sa) then sa else sa + sb
    ensures (if Halted(sab) then sab else sab + tail) ==
      if Halted(sa) then sa else sa + (if Halted(sb) then sb else sb + tail)
  {
    if !Halted(sa) {
      HaltedAppend(sa, sb);
      assert sa + sb + tail == sa + (sb + tail);
    }
  }

  /** After an output that has not panicked, the combined output has
      panicked iff the second part has. */
  lemma HaltedAppend(sa: seq<Event>, sb: seq<Event>)
    requires !Halted(sa)
    ensures Halted(sa + sb) <==> Halted(sb)
  {
    if sb == [] {
      assert sa + sb == sa;
    } else {
      assert (sa + sb)[|sa + sb| - 1] == sb[|sb| - 1];
    }
  }

  /** Scanning one more entry. */
  lemma ScanSnoc(step: Entry -> seq<Event>, entries: seq<Entry>, x: Entry)
    ensures ScanWith(step, entries + [x]) ==
      if Halted(ScanWith(step, entries)) then ScanWith(step, entries) else ScanWith(step, entries) + step(x)
  {
    assert (entries + [x])[..|entries|] == entries;
  }

  /** Once the first `k` entries have panicked, the rest are not scanned. */
  lemma PanicEndsScan(step: Entry -> seq<Event>, entries: seq<Entry>, k: nat)
    requires k <= |entries| && Halted(ScanWith(step, entries[..k]))
    ensures ScanWith(step, entries) == ScanWith(step, entries[..k])
  {
    ScanAppend(step, entries[..k], entries[k..]);
    assert entries[..k] + entries[k..] == entries;
  }

  /** One entry panics iff its key is out of bounds for decoding, and the
      panic is then all it yields. */
  lemma StepPanic(lib: Lib, q: Query, e: Entry)
    ensures Panicked in Step(lib, q, e) <==> !KeyInBounds(lib, e.key)
    ensures Panicked in Step(lib, q, e) <==> Step(lib, q, e) == [Panicked]
  {
  }

  /** A scan ends in a panic iff some entry's key is out of bounds for
      decoding. */
  lemma {:induction false} PanicIff(lib: Lib, q: Query, entries: seq<Entry>)
    ensures Halted(Scan(lib, q, entries)) <==>
      exists j :: 0 <= j < |entries| && !KeyInBounds(lib, entries[j].key)
  {
    if entries != [] {
      var init := entries[..|entries| - 1];
      var before := Scan(lib, q, init);
      PanicIff(lib, q, init);
      var step := Step(lib, q, entries[|entries| - 1]);
      StepPanic(lib, q, entries[|entries| - 1]);
      assert forall j :: 0 <= j < |init| ==> init[j] == entries[j];
      if !Halted(before) {
        assert step != [] ==> (before + step)[|before + step| - 1] == step[|step| - 1];
        assert step == [] ==> before + step == before;
      }
    }
  }

  /** A panic is printed at most once, and nothing is printed after it. */
  lemma {:induction false} PanicIsLast(lib: Lib, q: Query, entries: seq<Entry>)
    ensures var out := Scan(lib, q, entries);
      Panicked in out <==> Halted(out)
    ensures var out := Scan(lib, q, entries);
      Halted(out) ==> Panicked !in out[..|out| - 1]
  {
    if entries != [] {
      var before := Scan(lib, q, entries[..|entries| - 1]);
      PanicIsLast(lib, q, entries[..|entries| - 1]);
      if !Halted(before) {
        var step := Step(lib, q, entries[|entries| - 1]);
        StepPanic(lib, q, entries[|entries| - 1]);
        assert Panicked in before + step <==> Panicked in step;
        if Panicked in step {
          assert (before + step)[..|before + step| - 1] == before;
        } else if step != [] {
          assert (before + step)[|before + step| - 1] == step[0];
        }
      }
    }
  }

  /** An entry whose key, or whose value after the text filter, does not
      decode is reported and skipped; the entries around it are scanned as
      if it were not there. */
  lemma MalformedEntrySkipped(lib: Lib, q: Query, a: seq<Entry>, bad: Entry, b: seq<Entry>)
    requires !Halted(Scan(lib, q, a))
    ensures KeyFields(lib, bad.key).Malformed? ==>
      Scan(lib, q, a + [bad] + b) == Scan(lib, q, a) + [Skipped(MalformedKey)] + Scan(lib, q, b)
    ensures (&& KeyFields(lib, bad.key).Decoded?
             && TextMatches(KeyFields(lib, bad.key).cmd, q.words)
             && lib.decodeValue(bad.value).None?) ==>
      Scan(lib, q, a + [bad] + b) == Scan(lib, q, a) + [Skipped(MalformedValue)] + Scan(lib, q, b)
  {
    assert Scan(lib, q, [bad]) == Step(lib, q, bad) by {
      assert [bad][..0] == [];
      assert ScanWith(StepOf(lib, q), []) == [];
      assert StepOf(lib, q)(bad) == Step(lib, q, bad);
      assert [] + Step(lib, q, bad) == Step(lib, q, bad);
    }
    ScanAppend(StepOf(lib, q), a, [bad]);
    ScanAppend(StepOf(lib, q), a + [bad], b);
  }

  /** The entry yields a result line with this start, command and record. */
  predicate Selected(lib: Lib, q: Query, e: Entry, start: Instant, cmd: string, info: CommandInfo)
  {
    && KeyFields(lib, e.key) == Decoded(start, cmd)
    && TextMatches(cmd, q.words)
    && lib.decodeValue(e.value) == Some(info)
    && InfoMatches(info, q.keywords)
  }

  /** The scan reaches entry `i` (no earlier entry made it panic) and that
      entry yields a result line with this start, command and record. */
  predicate FoundAt(lib: Lib, q: Query, entries: seq<Entry>, i: int, start: Instant, cmd: string, info: CommandInfo)
  {
    && 0 <= i < |entries|
    && Selected(lib, q, entries[i], start, cmd, info)
    && forall j :: 0 <= j < i ==> KeyInBounds(lib, entries[j].key)
  }

  /** A record is emitted iff some scanned entry's key decodes to its start
      and command, every word occurs in that command, its value decodes to
      the record, every keyword matches the record, and no earlier entry
      made the scan panic. */
  lemma {:induction false} EmittedIff(lib: Lib, q: Query, entries: seq<Entry>, start: Instant, cmd: string, info: CommandInfo)
    ensures Emitted(start, cmd, info) in Scan(lib, q, entries) <==>
      exists i :: FoundAt(lib, q, entries, i, start, cmd, info)
  {
    if entries != [] {
      var n := |entries| - 1;
      var init, last := entries[..n], entries[n];
      EmittedIff(lib, q, init, start, cmd, info);
      PanicIff(lib, q, init);
      forall i | 0 <= i < n
        ensures FoundAt(lib, q, entries, i, start, cmd, info) <==> FoundAt(lib, q, init, i, start, cmd, info)
      {
        assert forall j :: 0 <= j <= i ==> init[j] == entries[j];
      }
      if Halted(Scan(lib, q, init)) {
        var j :| 0 <= j < n && !KeyInBounds(lib, init[j].key);
        assert entries[j] == init[j];
        assert !FoundAt(lib, q, entries, n, start, cmd, info);
      } else {
        assert forall j :: 0 <= j < n ==> entries[j] == init[j];
        assert FoundAt(lib, q, entries, n, start, cmd, info) <==> Selected(lib, q, last, start, cmd, info);
        assert Emitted(start, cmd, info) in Step(lib, q, last) <==> Selected(lib, q, last, start, cmd, info);
      }
    }
  }

  /** Each entry yields at most one line. */
  lemma {:induction false} ScanAtMostOnePerEntry(lib: Lib, q: Query, entries: seq<Entry>)
    ensures |Scan(lib, q, entries)| <= |entries|
  {
    if entries != [] {
      ScanAtMostOnePerEntry(lib, q, entries[..|entries| - 1]);
    }
  }

  /** The value is decoded only after the text filter passes: an entry whose
      key fails to decode or whose command misses a word yields the same
      output whatever the value decoder does, and a value warning is only
      ever given for an entry that passed the text filter. */
  lemma ValueDecodedAfterTextFilter(lib: Lib, q: Query, e: Entry, decode: seq<bv8> -> Option<CommandInfo>)
    ensures !(KeyFields(lib, e.key).Decoded? && TextMatches(KeyFields(lib, e.key).cmd, q.words)) ==>
      Step(lib, q, e) == Step(lib.(decodeValue := decode), q, e)
    ensures Skipped(MalformedValue) in Step(lib, q, e) ==>
      KeyFields(lib, e.key).Decoded? && TextMatches(KeyFields(lib, e.key).cmd, q.words)
  {
  }

  /** The dump prints every entry whose key and value decode, unless an
      earlier entry made it panic. */
  lemma DumpShowsEveryDecodable(lib: Lib, entries: seq<Entry>, start: Instant, cmd: string, info: CommandInfo)
    ensures Emitted(start, cmd, info) in Scan(lib, Query([], []), entries) <==>
      exists i :: (
        && 0 <= i < |entries| && KeyFields(lib, entries[i].key) == Decoded(start, cmd)
        && lib.decodeValue(entries[i].value) == Some(info)
        && forall j :: 0 <= j < i ==> KeyInBounds(lib, entries[j].key))
  {
    EmittedIff(lib, Query([], []), entries, start, cmd, info);
    assert forall i :: FoundAt(lib, Query([], []), entries, i, start, cmd, info) <==> (
      && 0 <= i < |entries| && KeyFields(lib, entries[i].key) == Decoded(start, cmd)
      && lib.decodeValue(entries[i].value) == Some(info)
      && forall j :: 0 <= j < i ==> KeyInBounds(lib, entries[j].key));
  }

  /** Every search token is either a keyword or a free-text word; when the
      first argument is a time range it is neither. */
  lemma QueryPartitionsTokens(lib: Lib, args: seq<string>)
    ensures var q, tokens := QueryOf(lib, args), SearchTokens(lib, args);
      && |q.words| + |q.keywords| == |tokens|
      && (StartEnd(lib, args).err.None? ==> args != [] && tokens == args[1..])
      && (StartEnd(lib, args).err.Some? ==> tokens == args)
      && forall i :: 0 <= i < |q.keywords| ==> WellTyped(q.keywords[i])
  {
    ClassifyPartition(lib, SearchTokens(lib, args));
    SpecialKeywordsMembers(lib, SearchTokens(lib, args));
  }

  /** A record stored under the key `makeDbKey` gives it, with a four-digit
      year and a start not on a whole second, is found by a query, with its
      own start cut to milliseconds and its command key, exactly
      when its command key holds every word and every keyword matches it,
      unless its key is under 23 bytes and decoding it panics. A query whose
      words are the record's own arguments and which has no keywords
      always finds a key of 23 bytes or more. */
  lemma StoredRecordFound(lib: Lib, q: Query, info: CommandInfo, value: seq<bv8>, args: seq<string>)
    requires KeyTimeLaws(lib)
    requires FourDigitYear(lib.format(info.start, DbTimeFormat))
    requires info.start % 1_000_000_000 >= 1_000_000
    requires lib.decodeValue(value) == Some(info)
    ensures Step(lib, q, Entry(MakeDbKey(lib, info), value)) ==
      if |MakeDbKey(lib, info)| < DbLenTime then [Panicked]
      else if TextMatches(info.cmdKey, q.words) && InfoMatches(info, q.keywords)
      then [Emitted(Millis(info.start), info.cmdKey, info)] else []
    ensures info.cmdKey == MakeCmdKey(args) && |MakeDbKey(lib, info)| >= DbLenTime ==>
      Step(lib, Query(args, []), Entry(MakeDbKey(lib, info), value)) ==
        [Emitted(Millis(info.start), info.cmdKey, info)]
  {
    KeyRoundTrip(lib, info);
  }

  /** A record whose start falls on a whole second is never found: every
      scan reports its key as malformed, or panics on it when its command
      key has two bytes or less. */
  lemma WholeSecondRecordNeverFound(lib: Lib, q: Query, info: CommandInfo, value: seq<bv8>)
    requires KeyTimeLaws(lib)
    requires FourDigitYear(lib.format(info.start, DbTimeFormat))
    requires info.start % 1_000_000_000 < 1_000_000
    ensures Step(lib, q, Entry(MakeDbKey(lib, info), value)) ==
      if |info.cmdKey| <= 2 then [Panicked] else [Skipped(MalformedKey)]
  {
    WholeSecondKeyUndecodable(lib, info);
  }
}
