/** The bounded sampling of a live feed. */
module Sampling {
  import opened Wrappers
  import opened Sanitising
  import opened Strings
  import Redaction

  const MAX_READ_BYTES := 0x80_0000

  // A line after trimming: its length, and what it decodes to (an object or null) if it does.
  datatype Line = Line(length: nat, decoded: Option<Json>)

  // How the stream itself ends once all its lines are read.
  datatype StreamEnd = Finished | Cancelled | Failed

  datatype SampleError = NoError | DecodeFailed | ReadFailed

  datatype Sample = Sample(events: seq<Json>, truncated: bool, error: SampleError)

  // `render` is the textual form in which a found value is compared with a filter.
  datatype Query = Query(count: int, outputLimit: int, filters: map<string, string>, secret: string, render: Json -> string)

  // ------------------------------------------------------------------------------- filters

  predicate Meets(event: Json, path: string, expected: string, render: Json -> string) {
    var found := Lookup(event, SplitOn(path, '.'));
    found.Some? && render(found.value) == expected
  }

  predicate Matches(event: Json, filters: map<string, string>, render: Json -> string) {
    forall path :: path in filters ==> Meets(event, path, filters[path], render)
  }

  // Walks one dotted path; the filters are visited in an arbitrary order.
  method MatchesFilters(event: Json, filters: map<string, string>, render: Json -> string) returns (ok: bool)
    ensures ok == Matches(event, filters, render)
  {
    var pending := filters.Keys;
    while pending != {}
      invariant pending <= filters.Keys
      invariant forall path :: path in filters && path !in pending ==> Meets(event, path, filters[path], render)
      decreases pending
    {
      var path :| path in pending;
      var segments := SplitOn(path, '.');
      var value := event;
      for i := 0 to |segments|
        invariant Lookup(event, segments) == Lookup(value, segments[i..])
      {
        if !value.Object? || segments[i] !in value.fields {
          assert !Meets(event, path, filters[path], render);
          return false;
        }
        assert segments[i..][1..] == segments[i + 1..];
        value := value.fields[segments[i]];
      }
      if render(value) != filters[path] {
        assert !Meets(event, path, filters[path], render);
        return false;
      }
      pending := pending - {path};
    }
    return true;
  }

  /** Filters compose: a union of filters that agree where they overlap is one filter after the other. */
  lemma FilterUnion(event: Json, f: map<string, string>, g: map<string, string>, render: Json -> string)
    requires forall path :: path in f && path in g ==> f[path] == g[path]
    ensures Matches(event, f + g, render) <==> Matches(event, f, render) && Matches(event, g, render)
  {
    var both := f + g;
    assert forall path :: path in f ==> path in both && both[path] == f[path];
    assert forall path :: path in g ==> path in both && both[path] == g[path];
  }

  predicate DotFree(segments: seq<string>) {
    segments != [] && forall i :: 0 <= i < |segments| ==> '.' !in segments[i]
  }

  // The event has a value at the path whose text is the expected one.
  ghost predicate Shows(event: Json, segments: seq<string>, expected: string, render: Json -> string) {
    exists leaf :: Has(event, segments, leaf) && render(leaf) == expected
  }

  ghost predicate ShowsAll(event: Json, filters: map<string, string>, render: Json -> string) {
    forall segments :: DotFree(segments) && Join(segments, '.') in filters ==> Shows(event, segments, filters[Join(segments, '.')], render)
  }

  lemma MeetsIsShows(event: Json, segments: seq<string>, expected: string, render: Json -> string)
    requires DotFree(segments)
    ensures Meets(event, Join(segments, '.'), expected, render) <==> Shows(event, segments, expected, render)
  {
    SplitUndoesJoin(segments, '.');
    hide SplitOn, Has, Lookup;
    var found := Lookup(event, segments);
    if found.Some? {
      LookupFindsWhatIsThere(event, segments, found.value);
    }
    forall leaf | Has(event, segments, leaf) ensures found == Some(leaf) {
      LookupFindsWhatIsThere(event, segments, leaf);
    }
  }

  /** An event matches exactly when for every filter it has a value at the path, and that value's text
      is the one asked for. */
  lemma MatchesExactly(event: Json, filters: map<string, string>, render: Json -> string)
    ensures Matches(event, filters, render) <==> ShowsAll(event, filters, render)
  {
    hide Meets, Shows;
    forall segments | DotFree(segments)
      ensures forall expected :: Meets(event, Join(segments, '.'), expected, render) <==> Shows(event, segments, expected, render)
    {
      forall expected ensures Meets(event, Join(segments, '.'), expected, render) <==> Shows(event, segments, expected, render) {
        MeetsIsShows(event, segments, expected, render);
      }
    }
    forall path | path in filters ensures DotFree(SplitOn(path, '.')) && Join(SplitOn(path, '.'), '.') == path {
      JoinUndoesSplit(path, '.');
    }
  }

  /** Whatever else an event holds, one filter compares the text of the leaf at its path. */
  lemma OneFilterExactly(v: Json, segments: seq<string>, leaf: Json, expected: string, render: Json -> string)
    requires DotFree(segments)
    ensures Matches(Put(v, segments, leaf), map[Join(segments, '.') := expected], render) <==> render(leaf) == expected
  {
    SplitUndoesJoin(segments, '.');
    LookupBelow(v, segments, leaf, []);
    assert segments + [] == segments;
    var path, filters := Join(segments, '.'), map[Join(segments, '.') := expected];
    assert path in filters;
    assert Meets(Put(v, segments, leaf), path, filters[path], render) <==> render(leaf) == expected;
  }

  /** A filter whose path leaves the event, at a missing field or at something that is not an object,
      never matches. */
  lemma NothingThereNeverMatches(v: Json, front: seq<string>, node: Json, rest: seq<string>, expected: string, render: Json -> string)
    requires DotFree(front + rest) && rest != [] && (!node.Object? || rest[0] !in node.fields)
    ensures !Matches(Put(v, front, node), map[Join(front + rest, '.') := expected], render)
  {
    SplitUndoesJoin(front + rest, '.');
    LookupBelow(v, front, node, rest);
    var path, filters := Join(front + rest, '.'), map[Join(front + rest, '.') := expected];
    assert path in filters && !Meets(Put(v, front, node), path, filters[path], render);
  }

  // --------------------------------------------------------------------- what a sample means

  // The event a line contributes: decoded, sanitised and matching.
  function EventOf(q: Query, line: Line): Option<Json> {
    if line.length == 0 || line.decoded.None? then None
    else
      var event := Sanitize(line.decoded.value, q.secret);
      if Matches(event, q.filters, q.render) then Some(event) else None
  }

  function Kept(q: Query, lines: seq<Line>): seq<Json> {
    if lines == [] then []
    else
      var e := EventOf(q, lines[|lines| - 1]);
      Kept(q, lines[..|lines| - 1]) + (if e.Some? then [e.value] else [])
  }

  function ReadBytes(lines: seq<Line>): nat {
    if lines == [] then 0 else ReadBytes(lines[..|lines| - 1]) + lines[|lines| - 1].length
  }

  function OutputBytes(q: Query, lines: seq<Line>): nat {
    if lines == [] then 0
    else
      var last := lines[|lines| - 1];
      OutputBytes(q, lines[..|lines| - 1]) + (if EventOf(q, last).Some? then last.length else 0)
  }

  predicate Decodable(line: Line) {
    line.length == 0 || line.decoded.Some?
  }

  // All of these lines can be taken in: every one decodes, both byte budgets hold, and the count
  // was not reached before the last one.
  predicate Allowed(q: Query, lines: seq<Line>) {
    && (forall i :: 0 <= i < |lines| ==> Decodable(lines[i]))
    && ReadBytes(lines) <= MAX_READ_BYTES
    && (Kept(q, lines) == [] || OutputBytes(q, lines) <= q.outputLimit)
    && (lines == [] || |Kept(q, lines[..|lines| - 1])| < q.count)
  }

  function LongestFrom(q: Query, lines: seq<Line>, n: nat): (r: nat)
    requires n <= |lines|
    ensures n <= r <= |lines|
    decreases |lines| - n
  {
    if n < |lines| && Allowed(q, lines[..n + 1]) then LongestFrom(q, lines, n + 1) else n
  }

  function Longest(q: Query, lines: seq<Line>): (r: nat)
    ensures r <= |lines|
  {
    LongestFrom(q, lines, 0)
  }

  lemma {:induction false} LongestFromStops(q: Query, lines: seq<Line>, n: nat)
    requires n <= |lines| && Allowed(q, lines[..n])
    ensures var r := LongestFrom(q, lines, n);
            Allowed(q, lines[..r]) && (r < |lines| ==> !Allowed(q, lines[..r + 1]))
    decreases |lines| - n
  {
    hide Allowed;
    if n < |lines| && Allowed(q, lines[..n + 1]) {
      LongestFromStops(q, lines, n + 1);
    }
  }

  lemma LongestStops(q: Query, lines: seq<Line>)
    ensures var r := Longest(q, lines);
            Allowed(q, lines[..r]) && (r < |lines| ==> !Allowed(q, lines[..r + 1]))
  {
    NothingTaken(q, lines);
    LongestFromStops(q, lines, 0);
  }

  lemma NothingTaken(q: Query, lines: seq<Line>)
    ensures lines[..0] == [] && Allowed(q, []) && Kept(q, []) == [] && ReadBytes([]) == 0 && OutputBytes(q, []) == 0
  {
  }

  function Expected(q: Query, lines: seq<Line>, end: StreamEnd): Sample {
    var n := Longest(q, lines);
    var events := Kept(q, lines[..n]);
    if |events| >= q.count then Sample(events, false, NoError)
    else if n == |lines| then Sample(events, false, if end.Failed? then ReadFailed else NoError)
    else if ReadBytes(lines[..n + 1]) > MAX_READ_BYTES then Sample(events, true, NoError)
    else if !Decodable(lines[n]) then Sample(events, false, DecodeFailed)
    else Sample(events, true, NoError)
  }

  lemma OneMoreLine(q: Query, lines: seq<Line>, n: nat)
    requires n < |lines|
    ensures var e := EventOf(q, lines[n]);
            && Kept(q, lines[..n + 1]) == Kept(q, lines[..n]) + (if e.Some? then [e.value] else [])
            && ReadBytes(lines[..n + 1]) == ReadBytes(lines[..n]) + lines[n].length
            && OutputBytes(q, lines[..n + 1]) == OutputBytes(q, lines[..n]) + (if e.Some? then lines[n].length else 0)
  {
    assert lines[..n + 1][..n] == lines[..n];
  }

  // -------------------------------------------------------------------------------- the loop

  method SampleStream(q: Query, lines: seq<Line>, end: StreamEnd) returns (r: Sample)
    requires q.count >= 1
    ensures r == Expected(q, lines, end)
  {
    NothingTaken(q, lines);
    hide Allowed, Kept, ReadBytes, OutputBytes, Matches;
    var events := [];
    var readBytes, outputBytes := 0, 0;
    var i := 0;
    while i < |lines|
      invariant 0 <= i <= |lines|
      invariant Allowed(q, lines[..i]) && Longest(q, lines) == LongestFrom(q, lines, i)
      invariant events == Kept(q, lines[..i]) && |events| < q.count
      invariant readBytes == ReadBytes(lines[..i]) && outputBytes == OutputBytes(q, lines[..i])
    {
      var line := lines[i];
      OneMoreLine(q, lines, i);
      NextAllowed(q, lines, i);
      readBytes := readBytes + line.length;
      if readBytes > MAX_READ_BYTES {
        return Sample(events, true, NoError);
      }
      i := i + 1;
      if line.length == 0 {
        continue;
      }
      if line.decoded.None? {
        return Sample(events, false, DecodeFailed);
      }
      var event := Sanitize(line.decoded.value, q.secret);
      var matches := MatchesFilters(event, q.filters, q.render);
      if !matches {
        continue;
      }
      if outputBytes + line.length > q.outputLimit {
        return Sample(events, true, NoError);
      }
      outputBytes := outputBytes + line.length;
      events := events + [event];
      if |events| >= q.count {
        FullIsLongest(q, lines, i);
        return Sample(events, false, NoError);
      }
    }
    return Sample(events, false, if end.Failed? then ReadFailed else NoError);
  }

  // Taking in one more line, seen from an allowed prefix that has not reached the count.
  lemma NextAllowed(q: Query, lines: seq<Line>, n: nat)
    requires n < |lines| && Allowed(q, lines[..n]) && |Kept(q, lines[..n])| < q.count
    ensures Allowed(q, lines[..n + 1]) <==>
      && Decodable(lines[n]) && ReadBytes(lines[..n]) + lines[n].length <= MAX_READ_BYTES
      && (EventOf(q, lines[n]).Some? ==> OutputBytes(q, lines[..n]) + lines[n].length <= q.outputLimit)
  {
    OneMoreLine(q, lines, n);
    var next := lines[..n + 1];
    assert next[..n] == lines[..n];
    assert forall i :: 0 <= i < n ==> next[i] == lines[..n][i];
    assert next[n] == lines[n];
  }

  lemma FullIsLongest(q: Query, lines: seq<Line>, n: nat)
    requires n <= |lines| && Allowed(q, lines[..n]) && |Kept(q, lines[..n])| >= q.count
    ensures LongestFrom(q, lines, n) == n
  {
    if n < |lines| {
      assert lines[..n + 1][..n] == lines[..n];
    }
  }

  // ------------------------------------------------------------------------------ properties

  lemma {:induction false} PrefixAllowed(q: Query, lines: seq<Line>, m: nat, n: nat)
    requires m <= n <= |lines| && Allowed(q, lines[..n])
    ensures Allowed(q, lines[..m])
    ensures Kept(q, lines[..m]) <= Kept(q, lines[..n])
    decreases n - m
  {
    if m < n {
      var longer, shorter := lines[..n], lines[..n - 1];
      OneMoreLine(q, lines, n - 1);
      assert longer[..n - 1] == shorter;
      assert forall i :: 0 <= i < n - 1 ==> shorter[i] == longer[i];
      if n - 1 > 0 {
        OneMoreLine(q, lines, n - 2);
        assert shorter[..n - 2] == lines[..n - 2];
      }
      PrefixAllowed(q, lines, m, n - 1);
    }
  }

  /** The lines taken in are exactly the longest allowed prefix of the stream. */
  lemma LongestIsLongest(q: Query, lines: seq<Line>, n: nat)
    requires n <= |lines|
    ensures Allowed(q, lines[..n]) <==> n <= Longest(q, lines)
  {
    hide Allowed, Kept;
    LongestStops(q, lines);
    var r := Longest(q, lines);
    if n <= r {
      PrefixAllowed(q, lines, n, r);
    } else if Allowed(q, lines[..n]) {
      PrefixAllowed(q, lines, r + 1, n);
    }
  }

  /** `truncated` is set exactly when a byte budget stopped the sample: more was wanted, there was a
      next line, and taking it would have broken the read budget, or it would have been an event
      that breaks the output budget. */
  lemma TruncatedIsExact(q: Query, lines: seq<Line>, end: StreamEnd)
    ensures var n := Longest(q, lines);
            Expected(q, lines, end).truncated <==>
              && |Kept(q, lines[..n])| < q.count && n < |lines|
              && (|| ReadBytes(lines[..n]) + lines[n].length > 8 * 1024 * 1024
                  || (EventOf(q, lines[n]).Some? && OutputBytes(q, lines[..n]) + lines[n].length > q.outputLimit))
  {
    LongestStops(q, lines);
    hide Allowed, Kept, ReadBytes, OutputBytes;
    var n := Longest(q, lines);
    if |Kept(q, lines[..n])| < q.count && n < |lines| {
      NextAllowed(q, lines, n);
      OneMoreLine(q, lines, n);
    }
  }

  /** A sample that is neither truncated nor in error is complete: it has all the events asked for,
      or the stream ended and every line of it was taken in. */
  lemma OtherwiseComplete(q: Query, lines: seq<Line>, end: StreamEnd)
    requires q.count >= 1
    ensures var r := Expected(q, lines, end);
            !r.truncated && r.error.NoError? ==> |r.events| == q.count || (r.events == Kept(q, lines) && !end.Failed?)
    ensures var n := Longest(q, lines);
            Expected(q, lines, end).error == DecodeFailed ==>
              n < |lines| && !Decodable(lines[n]) && |Kept(q, lines[..n])| < q.count
              && forall i :: 0 <= i < n ==> Decodable(lines[i])
  {
    SampleIsSound(q, lines, end);
    LongestStops(q, lines);
    var n := Longest(q, lines);
    assert lines[..|lines|] == lines;
    assert forall i :: 0 <= i < n ==> lines[i] == lines[..n][i];
  }

  /** Each error has its one cause. A read error: the stream failed after its last line, every line
      was taken in and more was wanted. A decode error: more was wanted and the next line fits the
      read budget and does not decode. Any other run has none, and a stream that is cut off by its
      deadline or cancelled gives the same sample as one that ends. */
  lemma ErrorsAreExact(q: Query, lines: seq<Line>, end: StreamEnd)
    ensures var n, error := Longest(q, lines), Expected(q, lines, end).error;
            && (error == ReadFailed <==> end.Failed? && n == |lines| && |Kept(q, lines[..n])| < q.count)
            && (error == DecodeFailed <==>
                  && n < |lines| && |Kept(q, lines[..n])| < q.count
                  && ReadBytes(lines[..n]) + lines[n].length <= 8 * 1024 * 1024
                  && lines[n].length > 0 && lines[n].decoded.None?)
    ensures Expected(q, lines, Cancelled) == Expected(q, lines, Finished)
  {
    LongestStops(q, lines);
    var n := Longest(q, lines);
    hide Allowed, Kept, ReadBytes, OutputBytes;
    if n < |lines| {
      OneMoreLine(q, lines, n);
    }
  }

  lemma {:induction false} KeptPerLine(q: Query, lines: seq<Line>)
    ensures |Kept(q, lines)| <= |lines|
    ensures forall e :: e in Kept(q, lines) ==> exists i :: 0 <= i < |lines| && EventOf(q, lines[i]) == Some(e)
  {
    if lines != [] {
      var most := lines[..|lines| - 1];
      KeptPerLine(q, most);
      forall e | e in Kept(q, lines) ensures exists i :: 0 <= i < |lines| && EventOf(q, lines[i]) == Some(e) {
        if e in Kept(q, most) {
          var i :| 0 <= i < |most| && EventOf(q, most[i]) == Some(e);
          assert lines[i] == most[i];
        } else {
          assert EventOf(q, lines[|lines| - 1]) == Some(e);
        }
      }
    }
  }

  /** Every sample respects its bounds, shows only sanitised events that meet every filter, and for
      a secret that does not leak none of them contains it. */
  lemma SampleIsSound(q: Query, lines: seq<Line>, end: StreamEnd)
    requires q.count >= 1
    ensures var n, r := Longest(q, lines), Expected(q, lines, end);
            && |r.events| <= q.count
            && (r.events == [] || OutputBytes(q, lines[..n]) <= q.outputLimit)
            && forall e :: e in r.events ==>
                 && Matches(e, q.filters, q.render) && ShowsAll(e, q.filters, q.render)
                 && (!Redaction.Leaks(q.secret, Redaction.MARK) ==> Clean(e, q.secret))
  {
    var taken := lines[..Longest(q, lines)];
    LongestStops(q, lines);
    if taken != [] {
      assert taken[..|taken| - 1] + [taken[|taken| - 1]] == taken;
      assert |Kept(q, taken)| <= |Kept(q, taken[..|taken| - 1])| + 1;
    }
    KeptPerLine(q, taken);
    hide Allowed, Kept, OutputBytes, Matches, ShowsAll;
    forall e | e in Kept(q, taken)
      ensures Matches(e, q.filters, q.render) && ShowsAll(e, q.filters, q.render)
      ensures !Redaction.Leaks(q.secret, Redaction.MARK) ==> Clean(e, q.secret)
    {
      var i :| 0 <= i < |taken| && EventOf(q, taken[i]) == Some(e);
      EventIsSound(q, taken[i]);
      MatchesExactly(e, q.filters, q.render);
    }
  }

  lemma EventIsSound(q: Query, line: Line)
    requires EventOf(q, line).Some?
    ensures var e := EventOf(q, line).value;
            Matches(e, q.filters, q.render) && (!Redaction.Leaks(q.secret, Redaction.MARK) ==> Clean(e, q.secret))
  {
    if !Redaction.Leaks(q.secret, Redaction.MARK) {
      SanitizedIsClean(line.decoded.value, q.secret);
    }
  }

  function Sum(xs: seq<nat>): nat {
    if xs == [] then 0 else xs[0] + Sum(xs[1..])
  }

  lemma {:induction false} SumOneMore(xs: seq<nat>, x: nat)
    ensures Sum(xs + [x]) == Sum(xs) + x
  {
    if xs == [] {
      assert (xs + [x])[1..] == [];
    } else {
      SumOneMore(xs[1..], x);
      assert (xs + [x])[1..] == xs[1..] + [x];
    }
  }

  function Lengths(lines: seq<Line>): (r: seq<nat>)
    ensures |r| == |lines| && forall i :: 0 <= i < |r| ==> r[i] == lines[i].length
  {
    seq(|lines|, i requires 0 <= i < |lines| => lines[i].length)
  }

  ghost predicate Wanted(q: Query, line: Line) {
    line.length > 0 && line.decoded.Some? && ShowsAll(Sanitize(line.decoded.value, q.secret), q.filters, q.render)
  }

  // The lines that hold the events: all the wanted ones, in order.
  ghost predicate Picks(q: Query, lines: seq<Line>, picked: seq<Line>, at: seq<nat>) {
    && |at| == |picked|
    && (forall a, b :: 0 <= a < b < |at| ==> at[a] < at[b])
    && (forall a :: 0 <= a < |at| ==> at[a] < |lines| && lines[at[a]] == picked[a] && Wanted(q, picked[a]))
    && (forall i :: 0 <= i < |lines| && Wanted(q, lines[i]) ==> i in at)
  }

  lemma WantedIsAnEvent(q: Query, line: Line)
    ensures EventOf(q, line) == if Wanted(q, line) then Some(Sanitize(line.decoded.value, q.secret)) else None
  {
    if line.decoded.Some? {
      MatchesExactly(Sanitize(line.decoded.value, q.secret), q.filters, q.render);
    }
    hide Matches, ShowsAll, Sanitize;
  }

  lemma PicksOneMore(q: Query, lines: seq<Line>, last: Line, picked: seq<Line>, at: seq<nat>)
    requires Picks(q, lines, picked, at)
    ensures if Wanted(q, last) then Picks(q, lines + [last], picked + [last], at + [|lines|]) else Picks(q, lines + [last], picked, at)
  {
    hide Wanted;
    var more, also := lines + [last], at + [|lines|];
    assert forall i :: 0 <= i < |lines| ==> more[i] == lines[i];
    assert also[|at|] == |lines|;
    assert forall a :: 0 <= a < |at| ==> also[a] == at[a];
  }

  lemma LengthOneMore(lines: seq<Line>, last: Line)
    ensures Sum(Lengths(lines + [last])) == Sum(Lengths(lines)) + last.length
  {
    assert Lengths(lines + [last]) == Lengths(lines) + [last.length];
    SumOneMore(Lengths(lines), last.length);
  }

  // The events are the sanitised contents of these lines.
  ghost predicate Contents(q: Query, events: seq<Json>, picked: seq<Line>) {
    && |events| == |picked|
    && forall a :: 0 <= a < |events| ==> picked[a].decoded.Some? && events[a] == Sanitize(picked[a].decoded.value, q.secret)
  }

  lemma ContentsOneMore(q: Query, events: seq<Json>, picked: seq<Line>, last: Line)
    requires Contents(q, events, picked)
    ensures EventOf(q, last).Some? <==> Wanted(q, last)
    ensures Wanted(q, last) ==> Contents(q, events + [EventOf(q, last).value], picked + [last])
  {
    WantedIsAnEvent(q, last);
    assert Wanted(q, last) ==> last.decoded.Some?;
    hide EventOf, Wanted, Sanitize;
  }

  lemma NothingPicked(q: Query)
    ensures Picks(q, [], [], []) && Contents(q, Kept(q, []), [])
    ensures ReadBytes([]) == Sum(Lengths([])) && OutputBytes(q, []) == Sum(Lengths([]))
  {
    assert Lengths([]) == [];
  }

  lemma {:induction false} KeptAreTheWanted(q: Query, lines: seq<Line>) returns (picked: seq<Line>, at: seq<nat>)
    ensures Picks(q, lines, picked, at) && Contents(q, Kept(q, lines), picked)
    ensures ReadBytes(lines) == Sum(Lengths(lines)) && OutputBytes(q, lines) == Sum(Lengths(picked))
  {
    hide *;
    if lines == [] {
      picked, at := [], [];
      NothingPicked(q);
    } else {
      var n := |lines| - 1;
      var most, last := lines[..n], lines[n];
      var picked', at' := KeptAreTheWanted(q, most);
      picked, at := if Wanted(q, last) then picked' + [last] else picked', if Wanted(q, last) then at' + [n] else at';
      assert most + [last] == lines == lines[..n + 1];
      OneMoreLine(q, lines, n);
      PicksOneMore(q, most, last, picked', at');
      ContentsOneMore(q, Kept(q, most), picked', last);
      LengthOneMore(most, last);
      LengthOneMore(picked', last);
      assert Kept(q, most) + [] == Kept(q, most);
    }
  }

  /** The events are, in the order of the stream, the sanitised contents of exactly those lines taken
      in that decode and show what every filter asks for; the two budgets are charged the lengths of
      all lines taken in and of these lines. */
  lemma EventsAreTheWantedLines(q: Query, lines: seq<Line>, end: StreamEnd) returns (picked: seq<Line>, at: seq<nat>)
    ensures var taken := lines[..Longest(q, lines)];
            && Picks(q, taken, picked, at)
            && Contents(q, Expected(q, lines, end).events, picked)
            && ReadBytes(taken) == Sum(Lengths(taken)) && OutputBytes(q, taken) == Sum(Lengths(picked))
  {
    picked, at := KeptAreTheWanted(q, lines[..Longest(q, lines)]);
    hide Picks, Contents, Kept, Sum, Lengths, ReadBytes, OutputBytes;
  }

  lemma {:induction false} NothingKept(q: Query, lines: seq<Line>)
    requires forall i :: 0 <= i < |lines| ==> EventOf(q, lines[i]).None?
    ensures Kept(q, lines) == []
  {
    if lines != [] {
      NothingKept(q, lines[..|lines| - 1]);
    }
  }

  lemma SensitiveFilterDropsTheLine(q: Query, line: Line, path: string, i: nat)
    requires path in q.filters && i < |SplitOn(path, '.')| && SensitiveKey(SplitOn(path, '.')[i])
    ensures EventOf(q, line).None?
  {
    if line.decoded.Some? {
      LookupCommutes(line.decoded.value, SplitOn(path, '.'), q.secret);
    }
  }

  /** A filter on a sensitive field never selects anything: it says nothing about the value. */
  lemma SensitiveFilterSelectsNothing(q: Query, lines: seq<Line>, end: StreamEnd, path: string, i: nat)
    requires path in q.filters && i < |SplitOn(path, '.')| && SensitiveKey(SplitOn(path, '.')[i])
    ensures Expected(q, lines, end).events == []
  {
    var taken := lines[..Longest(q, lines)];
    forall j | 0 <= j < |taken| ensures EventOf(q, taken[j]).None? {
      SensitiveFilterDropsTheLine(q, taken[j], path, i);
    }
    NothingKept(q, taken);
  }

  // The same question with room for more.
  ghost predicate Wider(q: Query, w: Query) {
    w.filters == q.filters && w.secret == q.secret && w.render == q.render && w.count >= q.count && w.outputLimit >= q.outputLimit
  }

  lemma {:induction false} SameAccounting(q: Query, w: Query, lines: seq<Line>)
    requires Wider(q, w)
    ensures Kept(w, lines) == Kept(q, lines) && OutputBytes(w, lines) == OutputBytes(q, lines)
  {
    if lines != [] {
      SameAccounting(q, w, lines[..|lines| - 1]);
    }
  }

  /** A larger count, a larger output limit or a longer stream only extends the sample: what was
      returned before stays, in the same order, however either run ended. */
  lemma SamplesOnlyGrow(q: Query, w: Query, lines: seq<Line>, more: seq<Line>, end: StreamEnd, end': StreamEnd)
    requires Wider(q, w) && lines <= more
    ensures Expected(q, lines, end).events <= Expected(w, more, end').events
  {
    var n := Longest(q, lines);
    var taken := lines[..n];
    assert more[..n] == taken;
    LongestStops(q, lines);
    AllowedInWider(q, w, taken);
    hide Allowed, Kept;
    LongestIsLongest(w, more, n);
    LongestStops(w, more);
    PrefixAllowed(w, more, n, Longest(w, more));
  }

  lemma AllowedInWider(q: Query, w: Query, lines: seq<Line>)
    requires Wider(q, w) && Allowed(q, lines)
    ensures Allowed(w, lines) && Kept(w, lines) == Kept(q, lines)
  {
    SameAccounting(q, w, lines);
    if lines != [] {
      SameAccounting(q, w, lines[..|lines| - 1]);
    }
  }
}
