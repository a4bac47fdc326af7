/** Removing credentials from decoded JSON, and looking values up by dotted paths. */
module Sanitising {
  import opened Wrappers
  import opened Redaction

  // Numbers keep their source text. A decoded `null` event is Null.
  datatype Json =
    | Null
    | Bool(b: bool)
    | Number(text: string)
    | Text(s: string)
    | Array(items: seq<Json>)
    | Object(fields: map<string, Json>)

  // ASCII letters in lower case and digits; every other character disappears.
  function NormalizedChar(c: char): string {
    if 'A' <= c <= 'Z' then [c - 'A' + 'a']
    else if 'a' <= c <= 'z' || '0' <= c <= '9' then [c]
    else ""
  }

  function Normalized(key: string): string {
    if key == "" then "" else NormalizedChar(key[0]) + Normalized(key[1..])
  }

  const SENSITIVE := {"apikey", "authorization", "accesstoken", "token", "secret"}

  predicate SensitiveKey(key: string) {
    Normalized(key) in SENSITIVE
  }

  lemma {:induction false} NormalizedConcat(a: string, b: string)
    ensures Normalized(a + b) == Normalized(a) + Normalized(b)
  {
    hide NormalizedChar;
    if a == "" {
      assert a + b == b;
    } else {
      NormalizedConcat(a[1..], b);
      assert (a + b)[0] == a[0] && (a + b)[1..] == a[1..] + b;
    }
  }

  predicate Alphanumeric(c: char) {
    'A' <= c <= 'Z' || 'a' <= c <= 'z' || '0' <= c <= '9'
  }

  lemma NormalizedAround(a: string, c: char, b: string)
    ensures Normalized(a + [c] + b) == Normalized(a) + Normalized([c]) + Normalized(b)
  {
    hide Normalized;
    NormalizedConcat(a + [c], b);
    NormalizedConcat(a, [c]);
  }

  lemma NormalizedOne(c: char)
    ensures !Alphanumeric(c) ==> Normalized([c]) == ""
    ensures 'A' <= c <= 'Z' ==> Normalized([c]) == Normalized([c - 'A' + 'a'])
  {
    assert [c][1..] == "";
    if 'A' <= c <= 'Z' {
      assert [c - 'A' + 'a'][1..] == "";
    }
  }

  /** Neither case nor anything between the letters and digits hides a sensitive key. */
  lemma SpellingDoesNotMatter(a: string, c: char, b: string)
    ensures !Alphanumeric(c) ==> (SensitiveKey(a + [c] + b) <==> SensitiveKey(a + b))
    ensures 'A' <= c <= 'Z' ==> (SensitiveKey(a + [c] + b) <==> SensitiveKey(a + [c - 'A' + 'a'] + b))
  {
    hide Normalized;
    NormalizedConcat(a, b);
    NormalizedAround(a, c, b);
    NormalizedOne(c);
    assert Normalized(a) + "" == Normalized(a);
    if 'A' <= c <= 'Z' {
      NormalizedAround(a, c - 'A' + 'a', b);
    }
  }

  /** Of the keys written in lower-case letters and digits exactly these five are sensitive; the
      spelling of every other key reduces to one of those. */
  lemma PlainSpelling(key: string)
    requires forall i :: 0 <= i < |key| ==> 'a' <= key[i] <= 'z' || '0' <= key[i] <= '9'
    ensures SensitiveKey(key) <==> key in {"apikey", "authorization", "accesstoken", "token", "secret"}
  {
    PlainWord(key);
  }

  lemma {:induction false} PlainWord(word: string)
    requires forall i :: 0 <= i < |word| ==> 'a' <= word[i] <= 'z' || '0' <= word[i] <= '9'
    ensures Normalized(word) == word
  {
    if word != "" {
      PlainWord(word[1..]);
    }
  }

  function Scrub(s: string, secret: string): string {
    if secret == "" then s else ReplaceAll(s, secret, MARK)
  }

  function Sanitize(v: Json, secret: string): Json
    decreases v
  {
    match v
    case Object(fields) => Object(map k | k in fields && !SensitiveKey(k) :: Sanitize(fields[k], secret))
    case Array(items) => Array(seq(|items|, i requires 0 <= i < |items| => Sanitize(items[i], secret)))
    case Text(s) => Text(Scrub(s, secret))
    case _ => v
  }

  /** Leaves: text has every occurrence of the secret replaced, and everything else, numbers included,
      is returned as it is. */
  lemma LeavesAreRedacted(v: Json, secret: string)
    requires !v.Object? && !v.Array?
    ensures Sanitize(v, secret) == if v.Text? && secret != "" then Text(ReplaceAll(v.s, secret, "[REDACTED]")) else v
  {
  }

  // No sensitive key at any depth and no string leaf with the secret in it.
  ghost predicate Clean(v: Json, secret: string)
    decreases v
  {
    match v
    case Object(fields) => forall k :: k in fields ==> !SensitiveKey(k) && Clean(fields[k], secret)
    case Array(items) => forall i :: 0 <= i < |items| ==> Clean(items[i], secret)
    case Text(s) => secret != "" ==> !Contains(s, secret)
    case _ => true
  }

  lemma {:induction false} SanitizedIsClean(v: Json, secret: string)
    requires !Leaks(secret, MARK)
    ensures Clean(Sanitize(v, secret), secret)
    decreases v
  {
    match v
    case Object(fields) =>
      forall k | k in fields ensures Clean(Sanitize(fields[k], secret), secret) {
        SanitizedIsClean(fields[k], secret);
      }
    case Array(items) =>
      forall i | 0 <= i < |items| ensures Clean(Sanitize(items[i], secret), secret) {
        SanitizedIsClean(items[i], secret);
      }
    case Text(s) =>
      if secret != "" {
        RedactionIsExact(secret, MARK);
        assert Removed(s, secret, MARK);
      }
    case _ =>
  }

  /** For every tree at once, the sanitised tree is clean exactly for the secrets that do not leak. */
  lemma SanitizingIsExact(secret: string)
    ensures (forall v :: Clean(Sanitize(v, secret), secret)) <==> !Leaks(secret, MARK)
  {
    if Leaks(secret, MARK) {
      var s := LeakyInput(secret, MARK);
      assert Sanitize(Text(s), secret) == Text(ReplaceAll(s, secret, MARK));
      assert !Clean(Sanitize(Text(s), secret), secret);
    } else {
      forall v ensures Clean(Sanitize(v, secret), secret) {
        SanitizedIsClean(v, secret);
      }
    }
  }

  /** Nothing else is touched: a clean tree comes back as it was. */
  lemma {:induction false} CleanIsUnchanged(v: Json, secret: string)
    requires Clean(v, secret)
    ensures Sanitize(v, secret) == v
    decreases v
  {
    match v
    case Object(fields) =>
      forall k | k in fields ensures Sanitize(fields[k], secret) == fields[k] {
        CleanIsUnchanged(fields[k], secret);
      }
      assert Sanitize(v, secret).fields == fields;
    case Array(items) =>
      forall i | 0 <= i < |items| ensures Sanitize(items[i], secret) == items[i] {
        CleanIsUnchanged(items[i], secret);
      }
      assert Sanitize(v, secret).items == items;
    case Text(s) =>
      if secret != "" {
        NothingToReplace(s, secret, MARK);
      }
    case _ =>
  }

  ghost predicate SanitizedOnce(v: Json, secret: string) {
    Sanitize(Sanitize(v, secret), secret) == Sanitize(v, secret)
  }

  lemma {:induction false} MarkAsSecret(v: Json)
    ensures SanitizedOnce(v, MARK)
    decreases v
  {
    var once := Sanitize(v, MARK);
    match v
    case Object(fields) =>
      forall k | k in once.fields ensures Sanitize(once.fields[k], MARK) == once.fields[k] {
        MarkAsSecret(fields[k]);
        assert SanitizedOnce(fields[k], MARK);
      }
      assert Sanitize(once, MARK).fields == once.fields;
    case Array(items) =>
      forall i | 0 <= i < |items| ensures Sanitize(once.items[i], MARK) == once.items[i] {
        MarkAsSecret(items[i]);
        assert SanitizedOnce(items[i], MARK);
      }
      assert Sanitize(once, MARK).items == once.items;
    case Text(s) =>
      MarkForMark(s, MARK);
    case _ =>
  }

  /** Sanitising twice equals sanitising once exactly for those secrets and the mark itself. */
  lemma SanitizingTwiceIsExact(secret: string)
    ensures (forall v :: SanitizedOnce(v, secret)) <==> !Leaks(secret, MARK) || secret == MARK
  {
    if secret == MARK {
      forall v ensures SanitizedOnce(v, secret) {
        MarkAsSecret(v);
      }
    } else if Leaks(secret, MARK) {
      var s := LeakyInput(secret, MARK);
      SomethingReplaced(ReplaceAll(s, secret, MARK), secret, MARK);
      assert Sanitize(Text(s), secret) == Text(ReplaceAll(s, secret, MARK));
      assert !SanitizedOnce(Text(s), secret);
    } else {
      forall v ensures SanitizedOnce(v, secret) {
        SanitizedIsClean(v, secret);
        CleanIsUnchanged(Sanitize(v, secret), secret);
      }
    }
  }

  // ------------------------------------------------------------------------ lookups by path

  function Lookup(v: Json, path: seq<string>): Option<Json>
    decreases |path|
  {
    if path == [] then Some(v)
    else if v.Object? && path[0] in v.fields then Lookup(v.fields[path[0]], path[1..])
    else None
  }

  /** Looking up in the sanitised tree is sanitising what is looked up in the original, for paths
      without a sensitive segment; with one, there is nothing to find. */
  lemma {:induction false} LookupCommutes(v: Json, path: seq<string>, secret: string)
    ensures Lookup(Sanitize(v, secret), path)
         == if (exists i :: 0 <= i < |path| && SensitiveKey(path[i])) then None
            else match Lookup(v, path) case None => None case Some(found) => Some(Sanitize(found, secret))
    decreases |path|
  {
    if path != [] {
      var rest := path[1..];
      if v.Object? && path[0] in v.fields && !SensitiveKey(path[0]) {
        LookupCommutes(v.fields[path[0]], rest, secret);
        assert forall i :: 0 <= i < |rest| ==> rest[i] == path[i + 1];
        assert (exists i :: 0 <= i < |rest| && SensitiveKey(rest[i])) <==> (exists i :: 0 <= i < |path| && SensitiveKey(path[i])) by {
          if i :| 0 <= i < |path| && SensitiveKey(path[i]) {
            assert SensitiveKey(rest[i - 1]);
          }
          if i :| 0 <= i < |rest| && SensitiveKey(rest[i]) {
            assert SensitiveKey(path[i + 1]);
          }
        }
      }
    }
  }

  // The tree with `leaf` at the end of the path, through objects that are made where there are none.
  function Put(v: Json, path: seq<string>, leaf: Json): Json
    decreases |path|
  {
    if path == [] then leaf
    else
      var fields := if v.Object? then v.fields else map[];
      var child := if path[0] in fields then fields[path[0]] else Null;
      Object(fields[path[0] := Put(child, path[1..], leaf)])
  }

  // The leaf is there already.
  predicate Has(v: Json, path: seq<string>, leaf: Json) {
    Put(v, path, leaf) == v
  }

  /** Looking up finds exactly what is there. */
  lemma {:induction false} LookupFindsWhatIsThere(v: Json, path: seq<string>, leaf: Json)
    ensures Lookup(v, path) == Some(leaf) <==> Has(v, path, leaf)
    decreases |path|
  {
    if path != [] && v.Object? && path[0] in v.fields {
      var k, rest := path[0], path[1..];
      var child := v.fields[k];
      LookupFindsWhatIsThere(child, rest, leaf);
      var changed := v.fields[k := Put(child, rest, leaf)];
      assert changed == v.fields <==> Put(child, rest, leaf) == child by {
        assert changed[k] == Put(child, rest, leaf);
      }
    } else if path != [] && v.Object? {
      assert path[0] in Put(v, path, leaf).fields;
    }
  }

  /** And what is put into a tree is found, whatever the tree was, and what follows below it too. */
  lemma {:induction false} LookupBelow(v: Json, path: seq<string>, leaf: Json, more: seq<string>)
    ensures Lookup(Put(v, path, leaf), path + more) == Lookup(leaf, more)
    decreases |path|
  {
    if path == [] {
      assert path + more == more;
    } else {
      var fields := if v.Object? then v.fields else map[];
      LookupBelow(if path[0] in fields then fields[path[0]] else Null, path[1..], leaf, more);
      assert (path + more)[1..] == path[1..] + more;
    }
  }

  // A node anywhere in the tree, through arrays too.
  datatype Step = Key(key: string) | Index(i: nat)

  function Find(v: Json, steps: seq<Step>): Option<Json>
    decreases |steps|
  {
    if steps == [] then Some(v)
    else
      match steps[0]
      case Key(k) => if v.Object? && k in v.fields then Find(v.fields[k], steps[1..]) else None
      case Index(i) => if v.Array? && i < |v.items| then Find(v.items[i], steps[1..]) else None
  }

  predicate Hidden(step: Step) {
    step.Key? && SensitiveKey(step.key)
  }

  /** Redaction moves nothing: every node not under a sensitive key is found where it was, sanitised,
      and no other node is there. */
  lemma {:induction false} EveryNodeKeepsItsPlace(v: Json, steps: seq<Step>, secret: string)
    ensures Find(Sanitize(v, secret), steps)
         == if (exists n :: 0 <= n < |steps| && Hidden(steps[n])) then None
            else match Find(v, steps) case None => None case Some(found) => Some(Sanitize(found, secret))
    decreases |steps|
  {
    if steps != [] {
      var rest := steps[1..];
      assert forall n :: 0 <= n < |rest| ==> rest[n] == steps[n + 1];
      assert (exists n :: 0 <= n < |steps| && Hidden(steps[n]))
        <==> Hidden(steps[0]) || (exists n :: 0 <= n < |rest| && Hidden(rest[n])) by {
        if n :| 0 <= n < |steps| && Hidden(steps[n]) {
          assert n > 0 ==> Hidden(rest[n - 1]);
        }
        if n :| 0 <= n < |rest| && Hidden(rest[n]) {
          assert Hidden(steps[n + 1]);
        }
      }
      match steps[0]
      case Key(k) =>
        if v.Object? && k in v.fields && !SensitiveKey(k) {
          EveryNodeKeepsItsPlace(v.fields[k], rest, secret);
        }
      case Index(i) =>
        if v.Array? && i < |v.items| {
          EveryNodeKeepsItsPlace(v.items[i], rest, secret);
        }
    }
  }
}
