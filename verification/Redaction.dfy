/** Replacing a secret by a mark, and exactly which secrets the replacement removes. */
module Redaction {

  // Strings stand for byte sequences, one char for each byte.
  const MARK := "[REDACTED]"

  predicate OccursAt(s: string, t: string, i: nat) {
    i + |t| <= |s| && s[i..i + |t|] == t
  }

  ghost predicate Contains(s: string, t: string) {
    exists i: nat :: OccursAt(s, t, i)
  }

  // Leftmost, non-overlapping replacement of every occurrence.
  function ReplaceAll(s: string, secret: string, mark: string): string
    requires secret != ""
  {
    if |s| < |secret| then s
    else if secret <= s then mark + ReplaceAll(s[|secret|..], secret, mark)
    else [s[0]] + ReplaceAll(s[1..], secret, mark)
  }

  // One is a prefix of the other.
  predicate Compatible(a: string, b: string) {
    a <= b || b <= a
  }

  // The secret can start at position i of a mark.
  predicate FromInside(secret: string, mark: string, i: nat) {
    i < |mark| && Compatible(secret, mark[i..])
  }

  // The secret can start with its own first k characters, which no earlier match swallows, and
  // go on with a mark.
  predicate Straddles(secret: string, mark: string, k: nat) {
    1 <= k < |secret| && Compatible(secret[k..], mark)
    && forall j: nat :: j < k ==> !OccursAt(secret[..k] + secret, secret, j)
  }

  predicate Leaks(secret: string, mark: string) {
    && secret != ""
    && ((exists i: nat :: i < |mark| && FromInside(secret, mark, i))
        || (exists k: nat :: k < |secret| && Straddles(secret, mark, k)))
  }

  ghost predicate Removed(s: string, secret: string, mark: string)
    requires secret != ""
  {
    !Contains(ReplaceAll(s, secret, mark), secret)
  }

  // How a prefix w of the output came about: w is kept text, or kept text up to k and then a mark.
  lemma {:induction false} WhereAPrefixComesFrom(s: string, secret: string, mark: string, w: string) returns (k: nat)
    requires secret != "" && w <= ReplaceAll(s, secret, mark)
    ensures k <= |w|
    ensures k == |w| ==> w <= s
    ensures k < |w| ==>
      && w[..k] + secret <= s && Compatible(w[k..], mark)
      && forall j: nat :: j < k ==> !OccursAt(s, secret, j)
    decreases |s|
  {
    if |s| < |secret| || w == "" {
      k := |w|;
    } else if secret <= s {
      k := 0;
      assert w[..0] + secret == secret && w[0..] == w;
    } else {
      var rest := ReplaceAll(s[1..], secret, mark);
      assert ReplaceAll(s, secret, mark) == [s[0]] + rest;
      PrefixTail(w, s[0], rest);
      var k' := WhereAPrefixComesFrom(s[1..], secret, mark, w[1..]);
      k := k' + 1;
      OneCharacterEarlier(s, secret, mark, w, k');
    }
  }

  lemma PrefixTail(w: string, c: char, rest: string)
    requires w != "" && w <= [c] + rest
    ensures w[0] == c && w[1..] <= rest
  {
    assert ([c] + rest)[1..] == rest;
  }

  lemma OneCharacterEarlier(s: string, secret: string, mark: string, w: string, k: nat)
    requires s != "" && w != "" && w[0] == s[0] && !(secret <= s) && k < |w|
    requires k == |w| - 1 ==> w[1..] <= s[1..]
    requires k < |w| - 1 ==>
      && w[1..][..k] + secret <= s[1..] && Compatible(w[1..][k..], mark)
      && forall j: nat :: j < k ==> !OccursAt(s[1..], secret, j)
    ensures k + 1 == |w| ==> w <= s
    ensures k + 1 < |w| ==>
      && w[..k + 1] + secret <= s && Compatible(w[k + 1..], mark)
      && forall j: nat :: j < k + 1 ==> !OccursAt(s, secret, j)
  {
    assert s == [s[0]] + s[1..] && w == [s[0]] + w[1..];
    if k + 1 < |w| {
      assert w[..k + 1] + secret == [s[0]] + (w[1..][..k] + secret);
      assert w[k + 1..] == w[1..][k..];
      forall j: nat | j < k + 1 ensures !OccursAt(s, secret, j) {
        if j > 0 {
          EarlierOccurrence(s, secret, j);
        }
      }
    }
  }

  lemma EarlierOccurrence(s: string, t: string, j: nat)
    requires s != "" && j > 0
    ensures OccursAt(s, t, j) ==> OccursAt(s[1..], t, j - 1)
  {
    if OccursAt(s, t, j) {
      assert s[1..][j - 1..j - 1 + |t|] == s[j..j + |t|];
    }
  }

  lemma OccursInLonger(s: string, longer: string, t: string, j: nat)
    requires s <= longer
    ensures OccursAt(s, t, j) ==> OccursAt(longer, t, j)
  {
    if OccursAt(s, t, j) {
      assert s[j..j + |t|] == longer[j..j + |t|];
    }
  }

  lemma StartsInKeptText(s: string, secret: string, mark: string)
    requires secret != "" && secret <= ReplaceAll(s, secret, mark) && !(secret <= s)
    ensures Leaks(secret, mark)
  {
    var k := WhereAPrefixComesFrom(s, secret, mark, secret);
    assert secret[..0] + secret == secret;
    hide ReplaceAll;
    if k > 0 {
      var near := secret[..k] + secret;
      forall j: nat | j < k ensures !OccursAt(near, secret, j) {
        OccursInLonger(near, s, secret, j);
      }
      assert Straddles(secret, mark, k);
    }
  }

  lemma {:induction false} OccurrenceMeansLeak(s: string, secret: string, mark: string, i: nat)
    requires secret != "" && OccursAt(ReplaceAll(s, secret, mark), secret, i)
    ensures Leaks(secret, mark)
    decreases |s|
  {
    var n, m, out := |secret|, |mark|, ReplaceAll(s, secret, mark);
    if n <= |s| {
      var cut, kept := if secret <= s then n else 1, if secret <= s then mark else [s[0]];
      var rest := ReplaceAll(s[cut..], secret, mark);
      assert out == kept + rest;
      if i >= |kept| {
        assert out[i..i + n] == rest[i - |kept|..i - |kept| + n];
        OccurrenceMeansLeak(s[cut..], secret, mark, i - |kept|);
      } else if secret <= s {
        assert out[i..i + n] == (mark[i..] + rest)[..n];
        assert FromInside(secret, mark, i);
      } else {
        assert out[0..n] == out[..n];
        StartsInKeptText(s, secret, mark);
      }
    }
  }

  lemma {:induction false} KeptThenMarked(left: string, secret: string, right: string, mark: string)
    requires secret != "" && forall j: nat :: j < |left| ==> !OccursAt(left + secret, secret, j)
    ensures ReplaceAll(left + secret + right, secret, mark) == left + mark + ReplaceAll(right, secret, mark)
  {
    var s := left + secret + right;
    if left == "" {
      assert left + secret == secret && left + mark == mark;
      assert s[|secret|..] == right;
    } else {
      NotAtTheFront(left + secret, right, secret);
      var shorter := left[1..];
      assert (left + secret)[1..] == shorter + secret;
      assert s[1..] == shorter + secret + right;
      forall j: nat | j < |shorter| ensures !OccursAt(shorter + secret, secret, j) {
        ShiftedOccurrence(left + secret, secret, j);
      }
      KeptThenMarked(shorter, secret, right, mark);
      assert ReplaceAll(s, secret, mark) == [s[0]] + ReplaceAll(s[1..], secret, mark);
      hide ReplaceAll, OccursAt;
      assert s[0] == left[0];
      assert [left[0]] + shorter == left;
    }
  }

  lemma NotAtTheFront(s: string, more: string, t: string)
    requires |t| <= |s| && !OccursAt(s, t, 0)
    ensures !(t <= s + more)
  {
    assert (s + more)[..|t|] == s[..|t|];
  }

  lemma ShiftedOccurrence(s: string, t: string, j: nat)
    requires s != ""
    ensures OccursAt(s[1..], t, j) ==> OccursAt(s, t, j + 1)
  {
    if OccursAt(s[1..], t, j) {
      assert s[1..][j..j + |t|] == s[j + 1..j + 1 + |t|];
    }
  }

  lemma LeakFromInside(secret: string, mark: string, i: nat) returns (s: string)
    requires secret != "" && FromInside(secret, mark, i)
    ensures !Removed(s, secret, mark)
  {
    var n, m := |secret|, |mark|;
    var right := if n > m - i then secret[m - i..] else "";
    s := "" + secret + right;
    KeptThenMarked("", secret, right, mark);
    var out := "" + mark + right;
    assert out == mark + right;
    assert ReplaceAll(right, secret, mark) == right;
    assert out[i..i + n] == secret;
    assert OccursAt(out, secret, i);
  }

  lemma LeakFromStraddling(secret: string, mark: string, k: nat) returns (s: string)
    requires secret != "" && Straddles(secret, mark, k)
    ensures !Removed(s, secret, mark)
  {
    var n, m := |secret|, |mark|;
    var left := secret[..k];
    var right := if n - k > m then secret[k + m..] else "";
    s := left + secret + right;
    KeptThenMarked(left, secret, right, mark);
    assert ReplaceAll(right, secret, mark) == right by { assert |right| < n; }
    var out := left + mark + right;
    assert secret == left + secret[k..];
    assert out[..n] == secret;
    assert OccursAt(out, secret, 0);
  }

  /** The replacement removes the secret from every string exactly when the secret does not leak;
      a caller can decide that from the secret alone. */
  lemma RedactionIsExact(secret: string, mark: string)
    requires secret != "" && mark != ""
    ensures (forall s :: Removed(s, secret, mark)) <==> !Leaks(secret, mark)
  {
    if Leaks(secret, mark) {
      var s := LeakyInput(secret, mark);
    } else {
      forall s ensures Removed(s, secret, mark) {
        if !Removed(s, secret, mark) {
          var i: nat :| OccursAt(ReplaceAll(s, secret, mark), secret, i);
          OccurrenceMeansLeak(s, secret, mark, i);
        }
      }
    }
  }

  lemma LeakyInput(secret: string, mark: string) returns (s: string)
    requires Leaks(secret, mark)
    ensures !Removed(s, secret, mark)
  {
    if i: nat :| i < |mark| && FromInside(secret, mark, i) {
      s := LeakFromInside(secret, mark, i);
    } else {
      var k: nat :| k < |secret| && Straddles(secret, mark, k);
      s := LeakFromStraddling(secret, mark, k);
    }
  }

  lemma InsideABracketedWord(secret: string, word: string, i: nat)
    requires secret != "" && FromInside(secret, "[" + word + "]", i)
    ensures '[' in secret || ']' in secret || Contains(word, secret)
  {
    var mark := "[" + word + "]";
    var tail := mark[i..];
    if i == 0 {
      assert secret[0] == mark[0];
    } else if tail <= secret {
      assert secret[|tail| - 1] == mark[|mark| - 1];
    } else {
      assert secret == mark[i..i + |secret|] == word[i - 1..i - 1 + |secret|];
      assert OccursAt(word, secret, i - 1);
    }
  }

  lemma AcrossABracket(secret: string, word: string, k: nat)
    requires Straddles(secret, "[" + word + "]", k)
    ensures '[' in secret
  {
    var mark := "[" + word + "]";
    assert secret[k] == secret[k..][0] == mark[0];
  }

  /** The common case: a secret without brackets that is not a piece of the word between them. */
  lemma PlainSecretsDoNotLeak(secret: string, word: string)
    requires '[' !in secret && ']' !in secret && !Contains(word, secret)
    ensures !Leaks(secret, "[" + word + "]")
  {
    var mark := "[" + word + "]";
    if Leaks(secret, mark) {
      if i: nat :| i < |mark| && FromInside(secret, mark, i) {
        InsideABracketedWord(secret, word, i);
      } else {
        var k: nat :| k < |secret| && Straddles(secret, mark, k);
        AcrossABracket(secret, word, k);
      }
    }
  }

  /** A key such as "]x" does leak: the mark supplies its first character. */
  lemma BracketKeyLeaks()
    ensures ReplaceAll("]xx", "]x", MARK) == "[REDACTED]x" && Contains("[REDACTED]x", "]x")
  {
    assert "]xx"[|"]x"|..] == "x";
    assert ReplaceAll("x", "]x", MARK) == "x";
    assert OccursAt("[REDACTED]x", "]x", 9);
  }

  // -------------------------------------------------------------------------- doing it twice

  lemma {:induction false} NothingToReplace(s: string, secret: string, mark: string)
    requires secret != "" && !Contains(s, secret)
    ensures ReplaceAll(s, secret, mark) == s
    decreases |s|
  {
    if |s| >= |secret| {
      assert !OccursAt(s, secret, 0);
      if Contains(s[1..], secret) {
        var i: nat :| OccursAt(s[1..], secret, i);
        assert OccursAt(s, secret, i + 1);
      }
      NothingToReplace(s[1..], secret, mark);
    }
  }

  lemma {:induction false} LengthsMoveOneWay(s: string, secret: string, mark: string)
    requires secret != ""
    ensures |secret| <= |mark| ==> |ReplaceAll(s, secret, mark)| >= |s|
    ensures |secret| >= |mark| ==> |ReplaceAll(s, secret, mark)| <= |s|
    decreases |s|
  {
    if |s| >= |secret| {
      LengthsMoveOneWay(if secret <= s then s[|secret|..] else s[1..], secret, mark);
    }
  }

  lemma {:induction false} SomethingReplaced(s: string, secret: string, mark: string)
    requires secret != "" && secret != mark && Contains(s, secret)
    ensures ReplaceAll(s, secret, mark) != s
    decreases |s|
  {
    var i: nat :| OccursAt(s, secret, i);
    if secret <= s {
      LengthsMoveOneWay(s[|secret|..], secret, mark);
      if |secret| == |mark| {
        assert ReplaceAll(s, secret, mark)[..|mark|] == mark;
        assert s[..|mark|] == secret;
      }
    } else {
      assert i > 0;
      assert OccursAt(s[1..], secret, i - 1);
      SomethingReplaced(s[1..], secret, mark);
      assert ReplaceAll(s, secret, mark)[1..] == ReplaceAll(s[1..], secret, mark);
    }
  }

  lemma {:induction false} MarkForMark(s: string, mark: string)
    requires mark != ""
    ensures ReplaceAll(s, mark, mark) == s
    decreases |s|
  {
    if |s| >= |mark| {
      MarkForMark(if mark <= s then s[|mark|..] else s[1..], mark);
    }
  }

  ghost predicate Settled(s: string, secret: string, mark: string)
    requires secret != ""
  {
    ReplaceAll(ReplaceAll(s, secret, mark), secret, mark) == ReplaceAll(s, secret, mark)
  }

  /** Redacting twice equals redacting once exactly for the secrets that do not leak, and for the
      mark itself. */
  lemma RedactingTwiceIsExact(secret: string, mark: string)
    requires secret != "" && mark != ""
    ensures (forall s :: Settled(s, secret, mark)) <==> !Leaks(secret, mark) || secret == mark
  {
    RedactionIsExact(secret, mark);
    if secret == mark {
      forall s ensures Settled(s, secret, mark) {
        MarkForMark(ReplaceAll(s, secret, mark), mark);
      }
    } else if Leaks(secret, mark) {
      var s := LeakyInput(secret, mark);
      SomethingReplaced(ReplaceAll(s, secret, mark), secret, mark);
      assert !Settled(s, secret, mark);
    } else {
      forall s ensures Settled(s, secret, mark) {
        assert Removed(s, secret, mark);
        NothingToReplace(ReplaceAll(s, secret, mark), secret, mark);
      }
    }
  }
}
