/** Normalising domain names before a lookup. */
module Domains {
  import opened Wrappers
  import opened Strings

  predicate LetterOrDigit(c: char) {
    'a' <= c <= 'z' || '0' <= c <= '9'
  }

  // The standard library's tables for single characters. Strings are sequences of characters here.
  datatype Unicode = Unicode(lower: char -> char, space: char -> bool)

  predicate Ascii(c: char) {
    c < 128 as char
  }

  // What those tables are known to do: the usual on ASCII, and outside of it no character becomes a
  // dot, and none that becomes a letter or digit (as the Kelvin sign does) is white space.
  ghost predicate Usual(u: Unicode) {
    && (forall c :: Ascii(c) ==> u.lower(c) == if 'A' <= c <= 'Z' then c - 'A' + 'a' else c)
    && (forall c :: Ascii(c) ==> (u.space(c) <==> c == ' ' || '\t' <= c <= '\r'))
    && (forall c :: !Ascii(c) ==> u.lower(c) != '.' && (LetterOrDigit(u.lower(c)) ==> !u.space(c)))
  }

  function TrimLeft(u: Unicode, s: string): string {
    if s != "" && u.space(s[0]) then TrimLeft(u, s[1..]) else s
  }

  function TrimRight(u: Unicode, s: string): string {
    if s != "" && u.space(s[|s| - 1]) then TrimRight(u, s[..|s| - 1]) else s
  }

  function Lower(u: Unicode, s: string): (r: string)
    ensures |r| == |s|
  {
    seq(|s|, i requires 0 <= i < |s| => u.lower(s[i]))
  }

  function WithoutFinalDot(s: string): string {
    if s != "" && s[|s| - 1] == '.' then s[..|s| - 1] else s
  }

  function Prepared(u: Unicode, value: string): string {
    WithoutFinalDot(Lower(u, TrimRight(u, TrimLeft(u, value))))
  }

  // Letters, digits and hyphens, 1 to 63 of them, alphanumeric at both ends (section 2.3.1 of
  // RFC 1035, as relaxed by section 2.1 of RFC 1123).
  predicate ValidLabel(name: string) {
    && 1 <= |name| <= 63
    && LetterOrDigit(name[0]) && LetterOrDigit(name[|name| - 1])
    && forall i :: 0 <= i < |name| ==> LetterOrDigit(name[i]) || name[i] == '-'
  }

  ghost predicate JoinsValidLabels(d: string, labels: seq<string>) {
    && labels != [] && d == Join(labels, '.')
    && forall i :: 0 <= i < |labels| ==> ValidLabel(labels[i])
  }

  ghost predicate NormalForm(d: string) {
    |d| <= 253 && exists labels :: JoinsValidLabels(d, labels)
  }

  ghost function Canonical(u: Unicode, value: string): Option<string> {
    var d := Prepared(u, value);
    if NormalForm(d) then Some(d) else None
  }

  lemma NormalFormBySplitting(d: string)
    ensures (exists labels :: JoinsValidLabels(d, labels)) <==> JoinsValidLabels(d, SplitOn(d, '.'))
  {
    JoinUndoesSplit(d, '.');
    if labels :| JoinsValidLabels(d, labels) {
      assert forall i :: 0 <= i < |labels| ==> '.' !in labels[i];
      SplitUndoesJoin(labels, '.');
    }
  }

  // The original's length is in bytes: it differs from this one only for names that hold characters
  // outside ASCII, and those fail the label check anyway.
  method NormalizeDomain(u: Unicode, input: string) returns (r: Option<string>)
    ensures r == Canonical(u, input)
  {
    var value := Prepared(u, input);
    var labels := SplitOn(value, '.');
    NormalFormBySplitting(value);
    JoinUndoesSplit(value, '.');
    assert value == "" ==> labels == [""] && !ValidLabel(labels[0]);
    hide Prepared, SplitOn, Join;
    if value == "" || |value| > 253 {
      return None;
    }
    for n := 0 to |labels|
      invariant forall i :: 0 <= i < n ==> ValidLabel(labels[i])
    {
      var name := labels[n];
      if |name| < 1 || |name| > 63 || !LetterOrDigit(name[0]) || !LetterOrDigit(name[|name| - 1]) {
        assert !ValidLabel(labels[n]);
        return None;
      }
      var index := 1;
      while index < |name| - 1
        invariant 1 <= index
        invariant index <= |name| - 1 || |name| == 1
        invariant forall i :: 0 <= i < index && i < |name| ==> LetterOrDigit(name[i]) || name[i] == '-'
      {
        if !LetterOrDigit(name[index]) && name[index] != '-' {
          assert !ValidLabel(labels[n]);
          return None;
        }
        index := index + 1;
      }
      assert ValidLabel(name);
    }
    return Some(value);
  }

  lemma {:induction false} NormalFormCharacters(labels: seq<string>)
    requires labels != [] && forall i :: 0 <= i < |labels| ==> ValidLabel(labels[i])
    ensures var d := Join(labels, '.');
            && d != "" && LetterOrDigit(d[0]) && LetterOrDigit(d[|d| - 1])
            && forall i :: 0 <= i < |d| ==> LetterOrDigit(d[i]) || d[i] == '-' || d[i] == '.'
  {
    if |labels| > 1 {
      NormalFormCharacters(labels[1..]);
      assert Join(labels, '.') == labels[0] + ['.'] + Join(labels[1..], '.');
    }
  }

  predicate Alphanumeric(c: char) {
    'a' <= c <= 'z' || '0' <= c <= '9'
  }

  // Dot-separated names, said without separating them: alphanumeric at both ends and on both sides of
  // each dot, and no 64 characters in a row without a dot.
  ghost predicate ByPositions(d: string) {
    && d != "" && Alphanumeric(d[0]) && Alphanumeric(d[|d| - 1])
    && (forall i :: 0 <= i < |d| ==> Alphanumeric(d[i]) || d[i] == '-' || d[i] == '.')
    && (forall i :: 0 < i < |d| - 1 && d[i] == '.' ==> Alphanumeric(d[i - 1]) && Alphanumeric(d[i + 1]))
    && (forall i :: 0 <= i <= |d| - 64 ==> DotWithin(d, i))
  }

  ghost predicate DotWithin(d: string, i: int)
    requires 0 <= i <= |d| - 64
  {
    exists j :: i <= j < i + 64 && d[j] == '.'
  }

  lemma WindowsOfBoth(name: string, rest: string, i: int)
    requires |name| <= 63 && (forall k :: 0 <= k <= |rest| - 64 ==> DotWithin(rest, k))
    requires 0 <= i <= |name + ['.'] + rest| - 64
    ensures DotWithin(name + ['.'] + rest, i)
  {
    var d, n := name + ['.'] + rest, |name|;
    if i <= n {
      assert d[n] == '.';
    } else {
      assert DotWithin(rest, i - n - 1);
      var j :| i - n - 1 <= j < i - n - 1 + 64 && rest[j] == '.';
      assert d[n + 1 + j] == '.';
    }
  }

  lemma FrontAndRest(name: string, rest: string)
    requires ValidLabel(name) && ByPositions(rest)
    ensures ByPositions(name + ['.'] + rest)
  {
    var d, n := name + ['.'] + rest, |name|;
    forall i | 0 <= i <= |d| - 64 ensures DotWithin(d, i) {
      WindowsOfBoth(name, rest, i);
    }
    hide DotWithin;
    assert forall i :: 0 <= i < |d| ==> d[i] == if i < n then name[i] else if i == n then '.' else rest[i - n - 1];
  }

  lemma {:induction false} LabelsArePositions(labels: seq<string>)
    requires labels != [] && forall i :: 0 <= i < |labels| ==> ValidLabel(labels[i])
    ensures ByPositions(Join(labels, '.'))
  {
    if |labels| > 1 {
      LabelsArePositions(labels[1..]);
      FrontAndRest(labels[0], Join(labels[1..], '.'));
    }
  }

  function FirstDot(d: string): (k: nat)
    ensures k <= |d| && (k < |d| ==> d[k] == '.') && forall i :: 0 <= i < k ==> d[i] != '.'
  {
    if d == "" || d[0] == '.' then 0 else 1 + FirstDot(d[1..])
  }

  lemma FirstDotIsNear(d: string)
    requires ByPositions(d)
    ensures FirstDot(d) <= 63
  {
    if |d| >= 64 {
      assert DotWithin(d, 0);
      var j :| 0 <= j < 64 && d[j] == '.';
      assert FirstDot(d) <= j;
    }
  }

  lemma WindowOfRest(d: string, k: nat, i: nat)
    requires ByPositions(d) && k < |d| && i + 64 <= |d| - k - 1
    ensures DotWithin(d[k + 1..], i)
  {
    assert DotWithin(d, k + 1 + i);
    var j :| k + 1 + i <= j < k + 1 + i + 64 && d[j] == '.';
    assert d[k + 1..][j - k - 1] == '.';
  }

  lemma FirstLabel(d: string, k: nat)
    requires ByPositions(d) && k == FirstDot(d) < |d|
    ensures ValidLabel(d[..k]) && k + 1 < |d| && Alphanumeric(d[k + 1])
  {
    FirstDotIsNear(d);
    hide DotWithin;
    assert 0 < k < |d| - 1 && d[k] == '.';
  }

  lemma RestByPositions(d: string, k: nat)
    requires ByPositions(d) && k == FirstDot(d) < |d|
    ensures ValidLabel(d[..k]) && ByPositions(d[k + 1..])
  {
    FirstLabel(d, k);
    var rest := d[k + 1..];
    forall i: nat | i <= |rest| - 64 ensures DotWithin(rest, i) {
      WindowOfRest(d, k, i);
    }
    hide DotWithin, FirstDot, ValidLabel;
    assert forall i :: 0 <= i < |rest| ==> rest[i] == d[k + 1 + i];
  }

  lemma {:induction false} PositionsAreLabels(d: string) returns (labels: seq<string>)
    requires ByPositions(d)
    ensures JoinsValidLabels(d, labels)
    decreases |d|
  {
    var k := FirstDot(d);
    FirstDotIsNear(d);
    if k == |d| {
      labels := [d];
    } else {
      RestByPositions(d, k);
      var more := PositionsAreLabels(d[k + 1..]);
      labels := [d[..k]] + more;
      assert labels[1..] == more;
      assert d == d[..k] + ['.'] + d[k + 1..];
    }
  }

  /** The normal forms are the strings of 1 to 253 letters, digits, hyphens and dots with a letter or
      digit at both ends and beside every dot, and never 64 characters in a row without a dot. */
  lemma NormalFormByPositions(d: string)
    ensures NormalForm(d) <==> |d| <= 253 && ByPositions(d)
  {
    hide ByPositions;
    if labels :| JoinsValidLabels(d, labels) {
      LabelsArePositions(labels);
    }
    if ByPositions(d) {
      var labels := PositionsAreLabels(d);
    }
  }

  lemma PreparedAlready(u: Unicode, d: string)
    requires Usual(u) && NormalForm(d)
    ensures Prepared(u, d) == d
  {
    var labels :| JoinsValidLabels(d, labels);
    NormalFormCharacters(labels);
    assert TrimLeft(u, d) == d && TrimRight(u, d) == d;
    assert Lower(u, d) == d;
  }

  /** The outputs are exactly the normal forms, and each of them is its own normal form. */
  lemma OutputsAreTheNormalForms(u: Unicode, d: string)
    requires Usual(u)
    ensures (exists value :: Canonical(u, value) == Some(d)) <==> NormalForm(d)
    ensures NormalForm(d) <==> Canonical(u, d) == Some(d)
  {
    if NormalForm(d) {
      PreparedAlready(u, d);
      assert Canonical(u, d) == Some(d);
    }
  }

  /** Normalising is idempotent. */
  lemma NormalisingTwice(u: Unicode, value: string)
    requires Usual(u)
    ensures Canonical(u, value).Some? ==> Canonical(u, Canonical(u, value).value) == Canonical(u, value)
  {
    if Canonical(u, value).Some? {
      OutputsAreTheNormalForms(u, Canonical(u, value).value);
    }
  }

  // ---------------------------------------------------------------- which inputs are accepted

  predicate Spaces(u: Unicode, s: string) {
    forall i :: 0 <= i < |s| ==> u.space(s[i])
  }

  ghost predicate Spelled(u: Unicode, value: string, left: string, name: string, dot: string, right: string, d: string) {
    && value == left + (name + dot) + right
    && Spaces(u, left) && Spaces(u, right) && Lower(u, name) == d && (dot == "" || dot == ".")
  }

  lemma {:induction false} TrimmedLeft(u: Unicode, s: string) returns (left: string)
    ensures Spaces(u, left) && s == left + TrimLeft(u, s)
  {
    left := "";
    if s != "" && u.space(s[0]) {
      var more := TrimmedLeft(u, s[1..]);
      left := [s[0]] + more;
    }
  }

  lemma {:induction false} TrimmedRight(u: Unicode, s: string) returns (right: string)
    ensures Spaces(u, right) && s == TrimRight(u, s) + right
  {
    right := "";
    if s != "" && u.space(s[|s| - 1]) {
      var more := TrimmedRight(u, s[..|s| - 1]);
      right := more + [s[|s| - 1]];
    }
  }

  lemma {:induction false} TrimsLeft(u: Unicode, left: string, s: string)
    requires Spaces(u, left) && (s == "" || !u.space(s[0]))
    ensures TrimLeft(u, left + s) == s
  {
    if left == "" {
      assert left + s == s;
    } else {
      assert (left + s)[1..] == left[1..] + s;
      TrimsLeft(u, left[1..], s);
    }
  }

  lemma {:induction false} TrimsRight(u: Unicode, s: string, right: string)
    requires Spaces(u, right) && (s == "" || !u.space(s[|s| - 1]))
    ensures TrimRight(u, s + right) == s
  {
    if right == "" {
      assert s + right == s;
    } else {
      var all := s + right;
      assert all[..|all| - 1] == s + right[..|right| - 1];
      TrimsRight(u, s, right[..|right| - 1]);
    }
  }

  lemma SpelledIsPrepared(u: Unicode, value: string, left: string, name: string, dot: string, right: string, d: string)
    requires Usual(u) && NormalForm(d) && Spelled(u, value, left, name, dot, right, d)
    ensures Prepared(u, value) == d
  {
    var labels :| JoinsValidLabels(d, labels);
    NormalFormCharacters(labels);
    var core := name + dot;
    assert Lower(u, name)[0] == d[0] && Lower(u, name)[|name| - 1] == d[|d| - 1];
    assert !u.space(core[0]) && !u.space(core[|core| - 1]);
    assert value == left + (core + right) && (core + right)[0] == core[0];
    TrimsLeft(u, left, core + right);
    TrimsRight(u, core, right);
    assert Lower(u, core) == d + dot;
    assert d + "" == d && (d + ".")[..|d|] == d;
  }

  lemma PreparedIsSpelled(u: Unicode, value: string) returns (left: string, name: string, dot: string, right: string)
    requires Usual(u)
    ensures Spelled(u, value, left, name, dot, right, Prepared(u, value))
  {
    left := TrimmedLeft(u, value);
    right := TrimmedRight(u, TrimLeft(u, value));
    var core := TrimRight(u, TrimLeft(u, value));
    hide TrimLeft, TrimRight, Spaces;
    var low := Lower(u, core);
    if low != "" && low[|low| - 1] == '.' {
      name, dot := core[..|core| - 1], ".";
      assert core[|core| - 1] == '.';
      assert core == name + dot;
      assert Lower(u, name) == low[..|low| - 1];
    } else {
      name, dot := core, "";
      assert core == name + dot;
    }
    assert value == left + (core + right) == left + core + right;
  }

  /** An input, ASCII or not, is accepted as d exactly when it is a spelling of the normal form d (one
      with d as its lower case) with at most one final dot and only white space around it. */
  lemma AcceptsExactly(u: Unicode, value: string, d: string)
    requires Usual(u)
    ensures Canonical(u, value) == Some(d) <==>
              NormalForm(d) && exists left, name, dot, right :: Spelled(u, value, left, name, dot, right, d)
  {
    if Canonical(u, value) == Some(d) {
      var left, name, dot, right := PreparedIsSpelled(u, value);
    }
    if NormalForm(d) {
      forall left, name, dot, right | Spelled(u, value, left, name, dot, right, d) ensures Canonical(u, value) == Some(d) {
        SpelledIsPrepared(u, value, left, name, dot, right, d);
      }
    }
  }

  /** Accepted inputs need not be ASCII, although the error text says so: a no-break space, the Kelvin
      sign and a dot are an input for the name k. */
  lemma KelvinSignIsAccepted(u: Unicode)
    requires Usual(u) && u.lower('\U{212A}') == 'k' && u.space('\U{A0}')
    ensures Canonical(u, "\U{A0}\U{212A}.") == Some("k")
  {
    assert JoinsValidLabels("k", ["k"]);
    assert Lower(u, "\U{212A}") == "k";
    assert "\U{A0}\U{212A}." == "\U{A0}" + ("\U{212A}" + ".") + "";
    assert Spelled(u, "\U{A0}\U{212A}.", "\U{A0}", "\U{212A}", ".", "", "k");
    AcceptsExactly(u, "\U{A0}\U{212A}.", "k");
  }
}
