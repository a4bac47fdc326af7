/** Building the path of an upstream request from untrusted segments. */
module Endpoints {
  import opened Wrappers
  import opened Strings

  type ByteChar = c: char | c as int < 256 witness 'a'

  // Strings of bytes.
  type Bytes = seq<ByteChar>

  // ------------------------------------------------- percent encoding (section 2.1 of RFC 3986)

  predicate Plain(c: char) {
    'a' <= c <= 'z' || 'A' <= c <= 'Z' || '0' <= c <= '9' || c in "-_.~$&+:=@"
  }

  function HexDigit(n: nat): (c: ByteChar)
    requires n < 16
    ensures '0' <= c <= '9' || 'A' <= c <= 'F'
  {
    if n < 10 then '0' + n as char else 'A' + (n - 10) as char
  }

  function HexValue(c: char): Option<nat> {
    if '0' <= c <= '9' then Some((c - '0') as int)
    else if 'A' <= c <= 'F' then Some((c - 'A') as int + 10)
    else if 'a' <= c <= 'f' then Some((c - 'a') as int + 10)
    else None
  }

  function EscapeByte(c: ByteChar): Bytes {
    if Plain(c) then [c] else ['%', HexDigit(c as int / 16), HexDigit(c as int % 16)]
  }

  function PathEscape(s: Bytes): Bytes {
    if s == [] then [] else EscapeByte(s[0]) + PathEscape(s[1..])
  }

  function PathUnescape(s: string): Option<string> {
    if s == "" then Some("")
    else if s[0] != '%' then
      match PathUnescape(s[1..])
      case None => None
      case Some(rest) => Some([s[0]] + rest)
    else if |s| < 3 || HexValue(s[1]).None? || HexValue(s[2]).None? then None
    else
      match PathUnescape(s[3..])
      case None => None
      case Some(rest) => Some([(HexValue(s[1]).value * 16 + HexValue(s[2]).value) as char] + rest)
  }

  lemma HexPair(c: ByteChar)
    ensures HexValue(HexDigit(c as int / 16)) == Some(c as int / 16)
    ensures HexValue(HexDigit(c as int % 16)) == Some(c as int % 16)
    ensures ((c as int / 16) * 16 + c as int % 16) as char == c
  {
  }

  lemma {:induction false} UnescapeUndoesEscape(s: Bytes)
    ensures PathUnescape(PathEscape(s)) == Some(s)
    ensures '/' !in PathEscape(s)
  {
    if s != [] {
      UnescapeUndoesEscape(s[1..]);
      var c, rest, out := s[0], PathEscape(s[1..]), PathEscape(s);
      assert s == [c] + s[1..];
      if Plain(c) {
        assert out == [c] + rest && out[1..] == rest;
      } else {
        HexPair(c);
        var high, low := HexDigit(c as int / 16), HexDigit(c as int % 16);
        assert out == ['%', high, low] + rest && out[3..] == rest;
      }
    }
  }

  /** Letters, digits and ten marks are written as they are, every other byte as a percent sign and
      two upper-case hexadecimal digits. */
  lemma EscapedByteByByte(c: ByteChar, rest: Bytes)
    ensures PathEscape([c] + rest) == PathEscape([c]) + PathEscape(rest)
    ensures var kept := 'a' <= c <= 'z' || 'A' <= c <= 'Z' || '0' <= c <= '9'
                        || c in ['-', '_', '.', '~', '$', '&', '+', ':', '=', '@'];
            if kept then PathEscape([c]) == [c] else |PathEscape([c])| == 3 && PathEscape([c])[0] == '%'
    ensures forall i :: 1 <= i < |PathEscape([c])| ==> '0' <= PathEscape([c])[i] <= '9' || 'A' <= PathEscape([c])[i] <= 'F'
  {
    assert ([c] + rest)[1..] == rest && [c][1..] == [];
    assert PathEscape([c] + rest) == EscapeByte(c) + PathEscape(rest);
    assert PathEscape([c]) == EscapeByte(c) + PathEscape([]) == EscapeByte(c);
  }

  // --------------------------------------------------- dot segments (section 5.2.4 of RFC 3986)

  // Joining one more segment to a rooted, clean path.
  function Joined(stack: seq<string>, segment: string): seq<string> {
    if segment == "." then stack
    else if segment == ".." then (if stack == [] then [] else stack[..|stack| - 1])
    else stack + [segment]
  }

  function JoinedAll(stack: seq<string>, segments: seq<string>): seq<string> {
    if segments == [] then stack
    else Joined(JoinedAll(stack, segments[..|segments| - 1]), segments[|segments| - 1])
  }

  // The reference: dot segments removed from a whole path at once, from the right; `up` counts the
  // parents still to be skipped.
  function WithoutDots(segments: seq<string>, up: nat): seq<string> {
    if segments == [] then []
    else
      var rest, last := segments[..|segments| - 1], segments[|segments| - 1];
      if last == "." then WithoutDots(rest, up)
      else if last == ".." then WithoutDots(rest, up + 1)
      else if up > 0 then WithoutDots(rest, up - 1)
      else WithoutDots(rest, 0) + [last]
  }

  lemma {:induction false} DotsFromEitherEnd(segments: seq<string>, up: nat)
    ensures var all := JoinedAll([], segments);
            WithoutDots(segments, up) == if up <= |all| then all[..|all| - up] else []
  {
    if segments != [] {
      var rest, last := segments[..|segments| - 1], segments[|segments| - 1];
      if last == "." {
        DotsFromEitherEnd(rest, up);
      } else if last == ".." {
        DotsFromEitherEnd(rest, up + 1);
      } else if up > 0 {
        DotsFromEitherEnd(rest, up - 1);
      } else {
        DotsFromEitherEnd(rest, 0);
      }
    }
  }

  predicate Ordinary(segment: string) {
    segment != "" && segment != "." && segment != ".." && '/' !in segment
  }

  predicate AllOrdinary(segments: seq<string>) {
    forall i :: 0 <= i < |segments| ==> Ordinary(segments[i])
  }

  lemma {:induction false} OrdinaryIsKept(stack: seq<string>, segments: seq<string>)
    requires AllOrdinary(segments)
    ensures JoinedAll(stack, segments) == stack + segments
  {
    if segments != [] {
      OrdinaryIsKept(stack, segments[..|segments| - 1]);
    }
  }

  lemma {:induction false} JoinedConcat(a: seq<string>, b: seq<string>)
    ensures JoinedAll([], a + b) == JoinedAll(JoinedAll([], a), b)
  {
    if b == [] {
      assert a + b == a;
    } else {
      assert (a + b)[..|a + b| - 1] == a + b[..|b| - 1];
      JoinedConcat(a, b[..|b| - 1]);
    }
  }

  // ------------------------------------------------------------------------------ the request

  datatype Endpoint = Path(path: string) | EmptySegment | OutsideBase

  function Escaped(segments: seq<Bytes>): (r: seq<Bytes>)
    ensures |r| == |segments| && forall i :: 0 <= i < |r| ==> r[i] == PathEscape(segments[i])
  {
    seq(|segments|, i requires 0 <= i < |segments| => PathEscape(segments[i]))
  }

  function Rendered(stack: seq<string>): string {
    "/" + Join(stack, '/')
  }

  function Build(base: seq<string>, segments: seq<Bytes>): Endpoint {
    if exists i :: 0 <= i < |segments| && segments[i] == [] then EmptySegment
    else
      var path := Rendered(JoinedAll(base, Escaped(segments)));
      if Rendered(base) + "/" <= path then Path(path) else OutsideBase
  }

  // `base` is the configured path as clean segments, without its trailing slash.
  method RequestPath(base: seq<string>, segments: seq<Bytes>) returns (r: Endpoint)
    requires base != [] && AllOrdinary(base)
    ensures r == Build(base, segments)
  {
    hide PathEscape, Ordinary;
    var endpoint := base;
    for i := 0 to |segments|
      invariant forall j :: 0 <= j < i ==> segments[j] != []
      invariant endpoint == JoinedAll(base, Escaped(segments)[..i])
    {
      if segments[i] == [] {
        return EmptySegment;
      }
      endpoint := Joined(endpoint, PathEscape(segments[i]));
      assert Escaped(segments)[..i + 1][..i] == Escaped(segments)[..i];
    }
    assert Escaped(segments)[..|segments|] == Escaped(segments);
    if !(Rendered(base) + "/" <= Rendered(endpoint)) {
      return OutsideBase;
    }
    return Path(Rendered(endpoint));
  }

  lemma {:induction false} StackIsOrdinary(stack: seq<string>, segments: seq<Bytes>)
    requires AllOrdinary(stack) && forall i :: 0 <= i < |segments| ==> segments[i] != []
    ensures AllOrdinary(JoinedAll(stack, Escaped(segments)))
  {
    if segments != [] {
      var most, last := segments[..|segments| - 1], segments[|segments| - 1];
      assert Escaped(segments)[..|segments| - 1] == Escaped(most);
      StackIsOrdinary(stack, most);
      UnescapeUndoesEscape(last);
      assert PathEscape(last) != "" by {
        assert PathUnescape("") == Some("");
      }
    }
  }

  lemma PrefixOfTextIsPrefixOfSegments(base: seq<string>, stack: seq<string>)
    requires base != [] && AllOrdinary(base) && AllOrdinary(stack)
    ensures Rendered(base) + "/" <= Rendered(stack) <==> base < stack
  {
    var prefix := Join(base, '/') + "/";
    assert Rendered(base) + "/" == "/" + prefix;
    assert "/" + prefix <= Rendered(stack) <==> prefix <= Join(stack, '/') by {
      assert Rendered(stack)[1..] == Join(stack, '/') && ("/" + prefix)[1..] == prefix;
    }
    if prefix <= Join(stack, '/') {
      var tail := Join(stack, '/')[|prefix|..];
      assert Join(stack, '/') == Join(base, '/') + ['/'] + tail;
      SplitUndoesJoin(stack, '/');
      SplitUndoesJoin(base, '/');
      SplitAtSeparator(Join(base, '/'), tail, '/');
    }
    if base < stack {
      var more := stack[|base|..];
      assert stack == base + more;
      JoinConcat(base, more, '/');
      assert Join(stack, '/') == prefix + Join(more, '/');
    }
  }

  lemma TargetIsTheStack(base: seq<string>, segments: seq<string>)
    requires AllOrdinary(base)
    ensures WithoutDots(base + segments, 0) == JoinedAll(base, segments)
  {
    DotsFromEitherEnd(base + segments, 0);
    JoinedConcat(base, segments);
    OrdinaryIsKept([], base);
    assert [] + base == base;
    var stack := JoinedAll([], base + segments);
    assert stack[..|stack| - 0] == stack;
  }

  lemma RenderedSplits(stack: seq<string>)
    requires stack != [] && AllOrdinary(stack)
    ensures SplitOn(Rendered(stack), '/') == [""] + stack
  {
    SplitUndoesJoin(stack, '/');
    NothingToSplit("", '/');
    SplitAtSeparator("", Join(stack, '/'), '/');
    assert "" + ['/'] + Join(stack, '/') == Rendered(stack);
  }

  /** The request path is an error or lies strictly under the base, and it is what the dot-segment
      removal of section 5.2.4 of RFC 3986 makes of base and segments written out in full; it is an
      error exactly when a segment is empty or that path is not strictly under the base. */
  lemma PathsStayUnderTheBase(base: seq<string>, segments: seq<Bytes>)
    requires base != [] && AllOrdinary(base)
    ensures var target := WithoutDots(base + Escaped(segments), 0);
            && (Build(base, segments).Path? <==> base < target && forall i :: 0 <= i < |segments| ==> segments[i] != [])
            && (Build(base, segments) == EmptySegment <==> exists i :: 0 <= i < |segments| && segments[i] == [])
            && (Build(base, segments).Path? ==> SplitOn(Build(base, segments).path, '/') == [""] + target && AllOrdinary(target))
  {
    var target := WithoutDots(base + Escaped(segments), 0);
    TargetIsTheStack(base, Escaped(segments));
    hide WithoutDots, JoinedAll, Escaped, Ordinary, Rendered, SplitOn;
    if forall i :: 0 <= i < |segments| ==> segments[i] != [] {
      StackIsOrdinary(base, segments);
      PrefixOfTextIsPrefixOfSegments(base, target);
      if base < target {
        RenderedSplits(target);
      }
    }
  }

  predicate Named(segment: Bytes) {
    segment != [] && segment != "." && segment != ".."
  }

  // What a server reads below the base: split at slashes and decode.
  function Received(base: seq<string>, path: string): (r: seq<Option<string>>)
    ensures var parts := SplitOn(path, '/');
            |parts| > |base| ==>
              && |r| == |parts| - |base| - 1
              && forall i :: 0 <= i < |r| ==> r[i] == PathUnescape(parts[1 + |base| + i])
  {
    var parts := SplitOn(path, '/');
    if |parts| <= |base| then [] else
      var below := parts[1 + |base|..];
      seq(|below|, i requires 0 <= i < |below| => PathUnescape(below[i]))
  }

  function Meant(segments: seq<Bytes>): (r: seq<Option<string>>)
    ensures |r| == |segments| && forall i :: 0 <= i < |r| ==> r[i] == Some(segments[i])
  {
    seq(|segments|, i requires 0 <= i < |segments| => Some(segments[i]))
  }

  lemma NamedIsOrdinary(segment: Bytes)
    requires Named(segment)
    ensures Ordinary(PathEscape(segment))
  {
    UnescapeUndoesEscape(segment);
    DotsAreThemselves();
  }

  lemma DotsAreThemselves()
    ensures PathUnescape("") == Some("") && PathUnescape(".") == Some(".") && PathUnescape("..") == Some("..")
  {
    assert "."[1..] == "" && ".."[1..] == ".";
    assert ['.'] + "" == "." && ['.'] + "." == "..";
  }

  /** Segments other than the empty one and the dots always make a path, and the other side reads
      back exactly those segments. */
  lemma SegmentsRoundTrip(base: seq<string>, segments: seq<Bytes>)
    requires base != [] && AllOrdinary(base) && segments != []
    requires forall i :: 0 <= i < |segments| ==> Named(segments[i])
    ensures Build(base, segments).Path?
    ensures Received(base, Build(base, segments).path) == Meant(segments)
  {
    WithoutDotsTheWholePath(base, segments);
    PathsStayUnderTheBase(base, segments);
    assert forall i :: 0 <= i < |segments| ==> segments[i] != [];
    hide *;
    BaseIsProper(base, Escaped(segments));
    ReceivedIsMeant(base, segments, Build(base, segments).path);
  }

  lemma BaseIsProper(base: seq<string>, more: seq<string>)
    requires more != []
    ensures base < base + more
  {
  }

  lemma ReceivedIsMeant(base: seq<string>, segments: seq<Bytes>, path: string)
    requires SplitOn(path, '/') == [""] + (base + Escaped(segments))
    ensures Received(base, path) == Meant(segments)
  {
    hide *;
    var parts := SplitOn(path, '/');
    forall i | 0 <= i < |segments| ensures PathUnescape(parts[1 + |base| + i]) == Some(segments[i]) {
      UnescapeUndoesEscape(segments[i]);
      assert parts[1 + |base| + i] == Escaped(segments)[i];
    }
  }

  lemma {:induction false} NothingToRemove(segments: seq<string>)
    requires AllOrdinary(segments)
    ensures WithoutDots(segments, 0) == segments
  {
    if segments != [] {
      NothingToRemove(segments[..|segments| - 1]);
    }
  }

  lemma WithoutDotsTheWholePath(base: seq<string>, segments: seq<Bytes>)
    requires AllOrdinary(base) && forall i :: 0 <= i < |segments| ==> Named(segments[i])
    ensures WithoutDots(base + Escaped(segments), 0) == base + Escaped(segments)
  {
    var all: seq<string> := base + Escaped(segments);
    hide WithoutDots, Ordinary;
    forall i | 0 <= i < |all| ensures Ordinary(all[i]) {
      if i >= |base| {
        NamedIsOrdinary(segments[i - |base|]);
      }
    }
    NothingToRemove(all);
  }

  lemma MeantApart(a: seq<Bytes>, b: seq<Bytes>)
    requires Meant(a) == Meant(b)
    ensures a == b
  {
    assert |a| == |b|;
    forall i | 0 <= i < |a| ensures a[i] == b[i] {
      assert Meant(a)[i] == Meant(b)[i];
    }
  }

  /** Different segments are never sent to the same path. */
  lemma DistinctSegmentsDistinctPaths(base: seq<string>, a: seq<Bytes>, b: seq<Bytes>)
    requires base != [] && AllOrdinary(base) && a != [] && b != []
    requires forall i :: 0 <= i < |a| ==> Named(a[i])
    requires forall i :: 0 <= i < |b| ==> Named(b[i])
    ensures Build(base, a) == Build(base, b) <==> a == b
  {
    SegmentsRoundTrip(base, a);
    SegmentsRoundTrip(base, b);
    hide Build, Received, Meant;
    if Build(base, a) == Build(base, b) {
      MeantApart(a, b);
    }
  }

  // ------------------------------------------------------------------------------ live feeds

  function FeedPath(stream: Bytes): seq<Bytes> {
    if stream == "honeypot_http" then ["helio", "http"]
    else if stream == "honeypot_https" then ["helio", "https"]
    else if stream == "honeypot_dns" then ["helio", "dns"]
    else if stream == "honeypot_adb" then ["helio", "adb"]
    else [stream]
  }

  function StreamSegments(stream: Bytes): seq<Bytes> {
    ["feeds"] + FeedPath(stream) + ["stream"]
  }

  /** The four honeypot streams are served below `helio`, every other stream under its own name. */
  lemma StreamEndpoints(stream: Bytes)
    ensures StreamSegments("honeypot_" + "http") == ["feeds", "helio", "http", "stream"]
    ensures StreamSegments("honeypot_" + "https") == ["feeds", "helio", "https", "stream"]
    ensures StreamSegments("honeypot_" + "dns") == ["feeds", "helio", "dns", "stream"]
    ensures StreamSegments("honeypot_" + "adb") == ["feeds", "helio", "adb", "stream"]
    ensures stream !in ["honeypot_http", "honeypot_https", "honeypot_dns", "honeypot_adb"] ==>
              StreamSegments(stream) == ["feeds", stream, "stream"]
  {
    assert "honeypot_" + "http" == "honeypot_http" && "honeypot_" + "https" == "honeypot_https";
    assert "honeypot_" + "dns" == "honeypot_dns" && "honeypot_" + "adb" == "honeypot_adb";
  }

  /** Two streams never share an endpoint. */
  lemma StreamsHaveTheirOwnPaths(base: seq<string>, a: Bytes, b: Bytes)
    requires base != [] && AllOrdinary(base) && Named(a) && Named(b)
    ensures Build(base, StreamSegments(a)).Path?
    ensures Build(base, StreamSegments(a)) == Build(base, StreamSegments(b)) <==> a == b
  {
    hide Build;
    SegmentsRoundTrip(base, StreamSegments(a));
    DistinctSegmentsDistinctPaths(base, StreamSegments(a), StreamSegments(b));
    StreamSegmentsApart(a, b);
  }

  lemma StreamSegmentsApart(a: Bytes, b: Bytes)
    ensures StreamSegments(a) == StreamSegments(b) ==> a == b
  {
    if StreamSegments(a) == StreamSegments(b) {
      assert FeedPath(a) == StreamSegments(a)[1..|StreamSegments(a)| - 1];
      assert FeedPath(b) == StreamSegments(b)[1..|StreamSegments(b)| - 1];
      assert FeedPath(a)[|FeedPath(a)| - 1] == FeedPath(b)[|FeedPath(b)| - 1];
    }
  }
}
