/** Recursive secret redaction of structured log events. */
module Redaction {

  const REDACTED: string := "[REDACTED]"
  const SECRET_KEYS: set<string> := {"api_key", "api_secret", "secret", "token", "authorization", "password"}

  // ----- Text -----

  /** `t` occurs in `s`, starting at some position. */
  ghost predicate Contains(s: string, t: string) {
    exists k: nat :: OccursAt(s, t, k)
  }

  predicate OccursAt(s: string, t: string, k: nat) {
    k <= |s| && t <= s[k..]
  }

  /** Leftmost non-overlapping replacement of a non-empty substring by the marker. */
  function Replace(s: string, secret: string): string
    requires secret != ""
    decreases |s|
  {
    if |s| < |secret| then s
    else if secret <= s then REDACTED + Replace(s[|secret|..], secret)
    else [s[0]] + Replace(s[1..], secret)
  }

  /** The text after every secret of the list has been replaced in turn. */
  function ReplaceAll(s: string, secrets: seq<string>): string
    requires "" !in secrets
  {
    if secrets == [] then s
    else Replace(ReplaceAll(s, secrets[..|secrets| - 1]), secrets[|secrets| - 1])
  }

  // ----- What a replacement is: the text cut at every occurrence, and joined again by the marker -----

  ghost function Join(parts: seq<string>, separator: string): string
    requires parts != []
  {
    if |parts| == 1 then parts[0] else parts[0] + separator + Join(parts[1..], separator)
  }

  /** The secret comes straight after the part and nowhere earlier. */
  ghost predicate EndsAtFirst(part: string, secret: string) {
    forall k | 0 <= k < |part| :: !OccursAt(part + secret, secret, k)
  }

  /** Replacement cuts the text at the leftmost occurrence, again and again, and loses nothing else:
      the parts joined by the secret are the input, and joined by the marker the result. */
  lemma {:induction false} ReplaceIsJoin(s: string, secret: string) returns (parts: seq<string>)
    requires secret != ""
    ensures parts != [] && Join(parts, secret) == s && Join(parts, REDACTED) == Replace(s, secret)
    ensures forall i | 0 <= i < |parts| - 1 :: EndsAtFirst(parts[i], secret)
    ensures !Contains(parts[|parts| - 1], secret)
    decreases |s|
  {
    hide OccursAt, EndsAtFirst, Contains, Join;
    forall part: string, separator ensures Join([part], separator) == part {
      JoinStarts([part], separator);
    }
    if |s| < |secret| {
      parts := [s];
      LongerIsAbsent(s, secret);
    } else if secret <= s {
      var rest := ReplaceIsJoin(s[|secret|..], secret);
      parts := [""] + rest;
      JoinGrows(rest, secret);
      JoinGrows(rest, REDACTED);
      assert parts[1..] == rest && secret + s[|secret|..] == s;
      assert EndsAtFirst("", secret) by {
        NothingBefore(secret);
      }
    } else {
      var rest := ReplaceIsJoin(s[1..], secret);
      parts := [[s[0]] + rest[0]] + rest[1..];
      JoinGrowsWithin(s[0], rest, secret);
      JoinGrowsWithin(s[0], rest, REDACTED);
      assert parts[1..] == rest[1..] && [s[0]] + s[1..] == s;
      PartGrows(s, secret, rest);
    }
  }

  lemma JoinStarts(parts: seq<string>, separator: string)
    requires parts != []
    ensures |parts| == 1 ==> Join(parts, separator) == parts[0]
    ensures |parts| > 1 ==> parts[0] + separator <= Join(parts, separator)
  {
  }

  lemma JoinGrows(rest: seq<string>, separator: string)
    requires rest != []
    ensures Join([""] + rest, separator) == separator + Join(rest, separator)
  {
    assert ([""] + rest)[1..] == rest && "" + separator == separator;
  }

  lemma JoinGrowsWithin(c: char, rest: seq<string>, separator: string)
    requires rest != []
    ensures Join([[c] + rest[0]] + rest[1..], separator) == [c] + Join(rest, separator)
  {
    var parts := [[c] + rest[0]] + rest[1..];
    assert parts[1..] == rest[1..];
    if |rest| > 1 {
      assert [c] + rest[0] + separator + Join(rest[1..], separator)
          == [c] + (rest[0] + separator + Join(rest[1..], separator));
    }
  }

  lemma NothingBefore(secret: string)
    ensures EndsAtFirst("", secret)
  {
  }

  /** No new occurrence starts in front of a longer part. */
  lemma PartGrows(s: string, secret: string, rest: seq<string>)
    requires |secret| <= |s| && secret != "" && !(secret <= s) && rest != [] && Join(rest, secret) == s[1..]
    requires |rest| > 1 ==> EndsAtFirst(rest[0], secret)
    requires |rest| == 1 ==> !Contains(rest[0], secret)
    ensures |rest| > 1 ==> EndsAtFirst([s[0]] + rest[0], secret)
    ensures |rest| == 1 ==> !Contains([s[0]] + rest[0], secret)
  {
    hide OccursAt, Join, EndsAtFirst, Contains;
    JoinStarts(rest, secret);
    if |rest| > 1 {
      EndGrows(s, rest[0], secret);
    } else {
      AbsenceGrows(s, rest[0], secret);
    }
  }

  lemma EndGrows(s: string, part: string, secret: string)
    requires s != "" && part + secret <= s[1..] && !(secret <= s) && EndsAtFirst(part, secret)
    ensures EndsAtFirst([s[0]] + part, secret)
  {
    hide OccursAt;
    var longer, shorter := [s[0]] + part, part + secret;
    assert longer + secret == [s[0]] + shorter;
    forall k | 0 <= k < |longer| ensures !OccursAt(longer + secret, secret, k) {
      if OccursAt([s[0]] + shorter, secret, k) {
        OccursBehind(s, shorter, secret, k);
      }
    }
  }

  lemma AbsenceGrows(s: string, part: string, secret: string)
    requires s != "" && part <= s[1..] && !(secret <= s) && !Contains(part, secret)
    ensures !Contains([s[0]] + part, secret)
  {
    hide OccursAt;
    forall k: nat ensures !OccursAt([s[0]] + part, secret, k) {
      if OccursAt([s[0]] + part, secret, k) {
        OccursBehind(s, part, secret, k);
      }
    }
  }

  lemma OccursBehind(s: string, shorter: string, secret: string, k: nat)
    requires s != "" && shorter <= s[1..] && !(secret <= s) && OccursAt([s[0]] + shorter, secret, k)
    ensures k > 0 && OccursAt(shorter, secret, k - 1)
  {
    var text := [s[0]] + shorter;
    assert text <= s && text[0..] == text;
    assert k > 0 ==> text[k..] == shorter[k - 1..];
  }

  method RedactText(value: string, secrets: seq<string>) returns (result: string)
    requires "" !in secrets
    ensures result == ReplaceAll(value, secrets)
  {
    result := value;
    for i := 0 to |secrets|
      invariant result == ReplaceAll(value, secrets[..i])
    {
      assert secrets[..i + 1][..i] == secrets[..i];
      result := Replace(result, secrets[i]);
    }
    assert secrets[..|secrets|] == secrets;
  }

  // ----- Values -----

  datatype Key = Text(text: string) | OtherKey(id: int)

  /** A logged value. Mappings keep their entries in order; an exception carries its message;
      anything else the redactor does not look into is opaque. */
  datatype Value =
    | Str(text: string)
    | Failure(message: string)
    | Mapping(entries: seq<(Key, Value)>)
    | List(items: seq<Value>)
    | Tuple(items: seq<Value>)
    | Opaque(id: int)

  /** `casefold` is the caseless form the source language gives a key. */
  predicate SecretKey(key: Key, casefold: string -> string) {
    key.Text? && casefold(key.text) in SECRET_KEYS
  }

  function RedactValue(value: Value, secrets: seq<string>, casefold: string -> string): Value
    requires "" !in secrets
    decreases value
  {
    match value
    case Str(text) => Str(ReplaceAll(text, secrets))
    case Failure(message) => Str(ReplaceAll(message, secrets))
    case Mapping(entries) =>
      Mapping(seq(|entries|, i requires 0 <= i < |entries| =>
        (entries[i].0,
         if SecretKey(entries[i].0, casefold) then Str(REDACTED)
         else RedactValue(entries[i].1, secrets, casefold))))
    case List(items) =>
      List(seq(|items|, i requires 0 <= i < |items| => RedactValue(items[i], secrets, casefold)))
    case Tuple(items) =>
      Tuple(seq(|items|, i requires 0 <= i < |items| => RedactValue(items[i], secrets, casefold)))
    case Opaque(_) => value
  }

  /** The order in which the secrets of a registry are replaced: each non-empty one once, longest
      first; secrets of equal length come in any order. */
  ghost predicate ReplacementOrder(secrets: seq<string>, registered: set<string>) {
    && (forall s :: s in secrets <==> s in registered && s != "")
    && (forall i, j | 0 <= i < j < |secrets| :: secrets[i] != secrets[j])
    && (forall i, j | 0 <= i < j < |secrets| :: |secrets[i]| >= |secrets[j]|)
  }

  /** Builds the replacement order: repeatedly the longest of the secrets left. */
  method LongestFirst(registered: set<string>) returns (secrets: seq<string>)
    ensures ReplacementOrder(secrets, registered)
  {
    var left := set s | s in registered && s != "";
    secrets := [];
    while left != {}
      invariant forall s :: s in registered && s != "" <==> s in secrets || s in left
      invariant forall s | s in left :: s !in secrets
      invariant forall i, j | 0 <= i < j < |secrets| :: secrets[i] != secrets[j]
      invariant forall i, j | 0 <= i < j < |secrets| :: |secrets[i]| >= |secrets[j]|
      invariant forall i, s | 0 <= i < |secrets| && s in left :: |secrets[i]| >= |s|
      decreases left
    {
      var longest :| longest in left;
      var others := left - {longest};
      while others != {}
        invariant longest in left && others <= left
        invariant forall s | s in left && s !in others :: |s| <= |longest|
        decreases others
      {
        var s :| s in others;
        if |s| > |longest| {
          longest := s;
        }
        others := others - {s};
      }
      secrets := secrets + [longest];
      left := left - {longest};
    }
  }

  datatype Result<T> = Ok(value: T) | TypeError

  method RedactSecrets(event: Value, registered: set<string>, casefold: string -> string)
    returns (redacted: Result<Value>, ghost secrets: seq<string>)
    ensures ReplacementOrder(secrets, registered)
    ensures redacted == if event.Mapping? then Ok(RedactValue(event, secrets, casefold)) else TypeError
    ensures redacted.Ok? ==> RedactionOf(event, redacted.value, secrets, casefold)
    ensures redacted.Ok? ==> SameShape(event, redacted.value, casefold)
    ensures redacted.Ok? && MarkerSafe(secrets) ==> Clean(redacted.value, secrets)
    ensures redacted.Ok? && |secrets| == 1 && !Returns(secrets[0]) ==> Clean(redacted.value, secrets)
  {
    var order := LongestFirst(registered);
    secrets := order;
    var value := RedactValue(event, order, casefold);
    hide RedactionOf, SameShape, Clean, Returns, MarkerSafe;
    ShapeAndKeysPreserved(event, order, casefold);
    RedactsEverything(event, order, casefold);
    if MarkerSafe(order) {
      RedactedIsClean(event, order, casefold);
    }
    if |order| == 1 && !Returns(order[0]) {
      assert order == [order[0]];
      OneSecretIsCleanIff(order[0], casefold);
    }
    redacted := if value.Mapping? then Ok(value) else TypeError;
  }

  // ----- What a replacement can and cannot create -----

  /** Laid over the marker so that it starts at place d, t agrees with it wherever both have a
      character. */
  predicate Agrees(t: string, d: int) {
    forall i | 0 <= i < |t| && 0 <= i + d < |REDACTED| :: t[i] == REDACTED[i + d]
  }

  /** No placement that overlaps the marker agrees with it: t neither lies in the marker, nor
      contains it, nor ends as it begins, nor begins as it ends. */
  predicate Apart(t: string) {
    forall d | -|t| < d < |REDACTED| :: !Agrees(t, d)
  }

  /** The placements at which t starts no later than the marker. */
  predicate ApartAhead(t: string) {
    forall d | -|t| < d <= 0 :: !Agrees(t, d)
  }

  lemma OccursInRest(s: string, t: string, k: nat, cut: nat)
    requires OccursAt(s, t, k) && cut <= k <= |s|
    ensures OccursAt(s[cut..], t, k - cut)
  {
    assert s[cut..][k - cut..] == s[k..];
  }

  lemma OccursLater(s: string, t: string, k: nat, cut: nat)
    requires cut <= |s| && OccursAt(s[cut..], t, k)
    ensures OccursAt(s, t, k + cut)
  {
    assert s[cut..][k..] == s[k + cut..];
  }

  lemma ContainsTrans(s: string, t: string, u: string)
    requires Contains(s, t) && Contains(t, u)
    ensures Contains(s, u)
  {
    var k: nat :| OccursAt(s, t, k);
    var m: nat :| OccursAt(t, u, m);
    assert t == s[k..][..|t|] && u == t[m..][..|u|];
    assert s[k + m..][..|u|] == u;
    assert OccursAt(s, u, k + m);
  }

  lemma RestApartAhead(t: string)
    requires t != "" && ApartAhead(t)
    ensures ApartAhead(t[1..])
  {
    forall d | -|t[1..]| < d <= 0 ensures !Agrees(t[1..], d) {
      assert !Agrees(t, d - 1);
      var i :| 0 <= i < |t| && 0 <= i + d - 1 < |REDACTED| && t[i] != REDACTED[i + d - 1];
      assert t[1..][i - 1] == t[i];
    }
  }

  lemma StartsAsMarker(rest: string, t: string)
    requires t <= REDACTED + rest
    ensures Agrees(t, 0)
  {
  }

  /** A text that stays apart from a following marker, found at the very start of the result, was
      already at the start of the input, and the replacement did not fire there. */
  lemma {:induction false} StartsUntouched(s: string, secret: string, t: string)
    requires secret != "" && t != "" && ApartAhead(t)
    requires t <= Replace(s, secret)
    ensures t <= s && (|secret| <= |s| ==> !(secret <= s))
    decreases |s|
  {
    if |s| >= |secret| {
      if secret <= s {
        StartsAsMarker(Replace(s[|secret|..], secret), t);
      } else {
        var rest := Replace(s[1..], secret);
        assert ([s[0]] + rest)[1..] == rest && t[0] == s[0];
        if |t| > 1 {
          RestApartAhead(t);
          assert t[1..] <= rest;
          StartsUntouched(s[1..], secret, t[1..]);
        }
        assert [t[0]] + t[1..] == t && [s[0]] + s[1..] == s;
      }
    }
  }

  /** An occurrence that starts inside a marker agrees with it. */
  lemma InsideMarker(rest: string, t: string, k: nat)
    requires k < |REDACTED| && OccursAt(REDACTED + rest, t, k)
    ensures Agrees(t, k)
  {
    var whole := REDACTED + rest;
    assert t == whole[k..][..|t|];
    forall i | 0 <= i < |t| && 0 <= i + k < |REDACTED| ensures t[i] == REDACTED[i + k] {
      assert t[i] == whole[k..][i] == whole[k + i];
    }
  }

  /** Replacing never brings a text into existence that stays apart from the marker. */
  lemma {:induction false} NothingNew(s: string, secret: string, t: string, k: nat)
    requires secret != "" && t != "" && Apart(t)
    requires OccursAt(Replace(s, secret), t, k)
    ensures Contains(s, t) && t != secret
    decreases |s|
  {
    hide Agrees;
    var result := Replace(s, secret);
    if |s| < |secret| {
      assert OccursAt(s, t, k);
    } else if secret <= s {
      var rest := Replace(s[|secret|..], secret);
      if k < |REDACTED| {
        InsideMarker(rest, t, k);
        assert false;
      } else {
        OccursInRest(result, t, k, |REDACTED|);
        assert result[|REDACTED|..] == rest;
        NothingNew(s[|secret|..], secret, t, k - |REDACTED|);
        var at: nat :| OccursAt(s[|secret|..], t, at);
        OccursLater(s, t, at, |secret|);
      }
    } else if k == 0 {
      assert result[0..] == result;
      StartsUntouched(s, secret, t);
      assert s[0..] == s;
      assert OccursAt(s, t, 0);
    } else {
      OccursInRest(result, t, k, 1);
      assert result[1..] == Replace(s[1..], secret);
      NothingNew(s[1..], secret, t, k - 1);
      var at: nat :| OccursAt(s[1..], t, at);
      OccursLater(s, t, at, 1);
    }
  }

  /** After all replacements no secret of the list that stays apart from the marker is left, whatever
      the order and whatever the other secrets are. */
  lemma {:induction false} NoSecretSurvives(s: string, secrets: seq<string>, t: string)
    requires "" !in secrets && t in secrets && Apart(t)
    ensures !Contains(ReplaceAll(s, secrets), t)
  {
    hide Apart;
    var n := |secrets| - 1;
    var before := ReplaceAll(s, secrets[..n]);
    if k: nat :| OccursAt(ReplaceAll(s, secrets), t, k) {
      NothingNew(before, secrets[n], t, k);
      assert t in secrets[..n];
      NoSecretSurvives(s, secrets[..n], t);
    }
  }

  // ----- The marker condition -----

  ghost predicate MarkerSafe(secrets: seq<string>) {
    forall s | s in secrets :: Apart(s)
  }

  predicate Bracketless(s: string) {
    '[' !in s && ']' !in s
  }

  /** The marker without its brackets. */
  const INNER: string := "REDACTED"

  lemma LiesInWord(t: string, d: nat)
    requires 1 <= d && d + |t| <= 9 && Agrees(t, d)
    ensures Contains(INNER, t)
  {
    assert REDACTED[1..9] == INNER;
    forall i | 0 <= i < |t| ensures INNER[d - 1 + i] == t[i] {
      assert REDACTED[1..9][d - 1 + i] == REDACTED[i + d];
    }
    assert INNER[d - 1..][..|t|] == t;
    assert OccursAt(INNER, t, d - 1);
  }

  /** A secret without brackets that is no part of the marker's word satisfies the condition. */
  lemma BracketlessIsApart(t: string)
    requires t != "" && Bracketless(t) && !Contains(INNER, t)
    ensures Apart(t)
  {
    forall d | -|t| < d < |REDACTED| ensures !Agrees(t, d) {
      if d <= 0 {
        assert t[-d] in t && REDACTED[0] == '[';
      } else if d + |t| > 9 {
        assert t[9 - d] in t && REDACTED[9] == ']';
      } else if Agrees(t, d) {
        LiesInWord(t, d);
      }
    }
  }

  lemma {:induction false} MarkerSurvives(s: string, secret: string, k: nat)
    requires secret != "" && OccursAt(s, REDACTED, k)
    ensures Contains(Replace(s, secret), REDACTED)
    decreases |s|
  {
    var result := Replace(s, secret);
    if |s| < |secret| {
      assert OccursAt(result, REDACTED, k);
    } else if secret <= s {
      assert result[0..] == result;
      assert OccursAt(result, REDACTED, 0);
    } else if k == 0 {
      MarkerOrUntouched(s[1..], secret);
      if m: nat :| OccursAt(Replace(s[1..], secret), REDACTED, m) {
        assert result[1..] == Replace(s[1..], secret);
        OccursLater(result, REDACTED, m, 1);
      } else {
        assert [s[0]] + s[1..] == s;
        assert OccursAt(result, REDACTED, 0);
      }
    } else {
      OccursInRest(s, REDACTED, k, 1);
      MarkerSurvives(s[1..], secret, k - 1);
      var m: nat :| OccursAt(Replace(s[1..], secret), REDACTED, m);
      assert result[1..] == Replace(s[1..], secret);
      OccursLater(result, REDACTED, m, 1);
    }
  }

  lemma {:induction false} MarkerOrUntouched(s: string, secret: string)
    requires secret != ""
    ensures Contains(Replace(s, secret), REDACTED) || Replace(s, secret) == s
    decreases |s|
  {
    var result := Replace(s, secret);
    if |s| < |secret| {
    } else if secret <= s {
      assert result[0..] == result;
      assert OccursAt(result, REDACTED, 0);
    } else {
      MarkerOrUntouched(s[1..], secret);
      if m: nat :| OccursAt(Replace(s[1..], secret), REDACTED, m) {
        assert result[1..] == Replace(s[1..], secret);
        OccursLater(result, REDACTED, m, 1);
      } else {
        assert [s[0]] + s[1..] == s;
      }
    }
  }

  lemma {:induction false} AbsentIsUntouched(s: string, secret: string)
    requires secret != "" && !Contains(s, secret)
    ensures Replace(s, secret) == s
    decreases |s|
  {
    if |s| >= |secret| {
      assert s[0..] == s && !OccursAt(s, secret, 0);
      forall k: nat | OccursAt(s[1..], secret, k) ensures false {
        OccursLater(s, secret, k, 1);
      }
      AbsentIsUntouched(s[1..], secret);
      assert [s[0]] + s[1..] == s;
    }
  }

  lemma LongerIsAbsent(s: string, t: string)
    requires |s| <= |t| && s != t
    ensures !Contains(s, t)
  {
    forall k: nat ensures !OccursAt(s, t, k) {
      assert s[0..] == s;
    }
  }

  /** The text of a registered secret becomes the marker, if no longer one is a secret too, and then
      contains every word of the marker for good. */
  lemma {:induction false} SecretBecomesMarker(secrets: seq<string>, i: nat, n: nat)
    requires "" !in secrets && i < |secrets| && n <= |secrets|
    requires forall a, b | 0 <= a < b < |secrets| :: secrets[a] != secrets[b]
    requires forall a, b | 0 <= a < b < |secrets| :: |secrets[a]| >= |secrets[b]|
    ensures n <= i ==> ReplaceAll(secrets[i], secrets[..n]) == secrets[i]
    ensures n > i ==> Contains(ReplaceAll(secrets[i], secrets[..n]), REDACTED)
    decreases n
  {
    if n > 0 {
      hide Replace, ReplaceAll, Contains;
      SecretBecomesMarker(secrets, i, n - 1);
      NextReplacement(secrets[i], secrets, n - 1);
      var before := ReplaceAll(secrets[i], secrets[..n - 1]);
      var secret := secrets[n - 1];
      if n <= i {
        LongerIsAbsent(secrets[i], secret);
        AbsentIsUntouched(before, secret);
      } else if n - 1 == i {
        ReplacesItself(secret);
      } else {
        MarkerStaysIn(before, secret);
      }
    } else {
      assert secrets[..0] == [];
    }
  }

  lemma NextReplacement(text: string, secrets: seq<string>, n: nat)
    requires "" !in secrets && n < |secrets|
    ensures ReplaceAll(text, secrets[..n + 1]) == Replace(ReplaceAll(text, secrets[..n]), secrets[n])
  {
    assert secrets[..n + 1][..n] == secrets[..n];
  }

  lemma ReplacesItself(secret: string)
    requires secret != ""
    ensures Replace(secret, secret) == REDACTED && Contains(REDACTED, REDACTED)
  {
    assert secret[|secret|..] == "" && Replace("", secret) == "";
    assert REDACTED[0..] == REDACTED;
    assert OccursAt(REDACTED, REDACTED, 0);
  }

  lemma MarkerStaysIn(s: string, secret: string)
    requires secret != "" && Contains(s, REDACTED)
    ensures Contains(Replace(s, secret), REDACTED)
  {
    var k: nat :| OccursAt(s, REDACTED, k);
    MarkerSurvives(s, secret, k);
  }

  // ----- Values: no secret in a value position -----

  /** No string in a value position contains a secret. Mapping keys and opaque objects are copied. */
  ghost predicate Clean(value: Value, secrets: seq<string>)
    decreases value
  {
    match value
    case Str(text) => forall s | s in secrets :: !Contains(text, s)
    case Failure(message) => forall s | s in secrets :: !Contains(message, s)
    case Mapping(entries) => forall i | 0 <= i < |entries| :: Clean(entries[i].1, secrets)
    case List(items) => forall i | 0 <= i < |items| :: Clean(items[i], secrets)
    case Tuple(items) => forall i | 0 <= i < |items| :: Clean(items[i], secrets)
    case Opaque(_) => true
  }

  lemma MarkerIsClean(secrets: seq<string>)
    requires "" !in secrets && MarkerSafe(secrets)
    ensures forall s | s in secrets :: !Contains(REDACTED, s)
  {
    hide Agrees;
    forall s | s in secrets ensures !Contains(REDACTED, s) {
      if k: nat :| OccursAt(REDACTED, s, k) {
        assert REDACTED + "" == REDACTED;
        InsideMarker("", s, k);
        assert false;
      }
    }
  }

  /** The secret never occurs in a redacted text. */
  ghost predicate Protected(secret: string, secrets: seq<string>)
    requires "" !in secrets
  {
    forall text :: !Contains(ReplaceAll(text, secrets), secret)
  }

  ghost predicate AllProtected(secrets: seq<string>)
    requires "" !in secrets
  {
    forall s | s in secrets :: Protected(s, secrets) && !Contains(REDACTED, s)
  }

  lemma {:induction false} ProtectedIsClean(value: Value, secrets: seq<string>, casefold: string -> string)
    requires "" !in secrets && AllProtected(secrets)
    ensures Clean(RedactValue(value, secrets, casefold), secrets)
    decreases value
  {
    hide Contains;
    match value
    case Str(text) =>
    case Failure(message) =>
    case Mapping(entries) =>
      forall i | 0 <= i < |entries| { ProtectedIsClean(entries[i].1, secrets, casefold); }
    case List(items) =>
      forall i | 0 <= i < |items| { ProtectedIsClean(items[i], secrets, casefold); }
    case Tuple(items) =>
      forall i | 0 <= i < |items| { ProtectedIsClean(items[i], secrets, casefold); }
    case Opaque(_) =>
  }

  /** Main result: if every secret stays apart from the marker, no string in a value position of any
      redacted value contains any of them. */
  lemma RedactedIsClean(value: Value, secrets: seq<string>, casefold: string -> string)
    requires "" !in secrets && MarkerSafe(secrets)
    ensures Clean(RedactValue(value, secrets, casefold), secrets)
  {
    hide Apart, Contains;
    MarkerIsClean(secrets);
    forall s, text | s in secrets ensures !Contains(ReplaceAll(text, secrets), s) {
      NoSecretSurvives(text, secrets, s);
    }
    ProtectedIsClean(value, secrets, casefold);
  }

  /** A secret that lies in the marker leaks out of every registry: its own text becomes the marker. */
  lemma MarkerWordLeaks(secrets: seq<string>, registered: set<string>, secret: string)
    requires ReplacementOrder(secrets, registered) && secret in secrets && Contains(REDACTED, secret)
    ensures !Protected(secret, secrets)
  {
    var i :| 0 <= i < |secrets| && secrets[i] == secret;
    SecretBecomesMarker(secrets, i, |secrets|);
    assert secrets[..|secrets|] == secrets;
    ContainsTrans(ReplaceAll(secret, secrets), REDACTED, secret);
  }

  // ----- A registry of one secret: the exact condition -----

  /** The secret can come back beside a marker put in its own place: it lies in the marker; or
      begins as the marker ends; or begins with a text after which it is first found (`head`) and
      goes on as the marker begins, or with the whole marker and more. */
  ghost predicate Returns(secret: string) {
    || Contains(REDACTED, secret)
    || (exists d :: 0 < d < |REDACTED| && Agrees(secret, d))
    || (exists n :: 0 <= n < |secret| && Agrees(secret, -n) && EndsAtFirst(secret[..n], secret))
  }

  /** At the first occurrence the marker takes the secret's place. */
  lemma {:induction false} ReplaceAtFirst(head: string, secret: string, tail: string)
    requires secret != "" && EndsAtFirst(head, secret)
    ensures Replace(head + secret + tail, secret) == head + REDACTED + Replace(tail, secret)
    decreases |head|
  {
    hide EndsAtFirst;
    var s := head + secret + tail;
    if head == "" {
      assert s == secret + tail && s[|secret|..] == tail;
    } else {
      var rest := head[1..];
      NotAtStart(head, secret, tail);
      assert s[1..] == rest + secret + tail;
      RestEndsAtFirst(head, secret);
      ReplaceAtFirst(rest, secret, tail);
      assert [s[0]] + (rest + REDACTED + Replace(tail, secret)) == head + REDACTED + Replace(tail, secret);
    }
  }

  lemma NotAtStart(head: string, secret: string, tail: string)
    requires head != "" && EndsAtFirst(head, secret)
    ensures !(secret <= head + secret + tail)
  {
    assert !OccursAt(head + secret, secret, 0) && (head + secret)[0..] == head + secret;
  }

  lemma RestEndsAtFirst(head: string, secret: string)
    requires head != "" && EndsAtFirst(head, secret)
    ensures EndsAtFirst(head[1..], secret)
  {
    forall k | 0 <= k < |head| - 1 ensures !OccursAt(head[1..] + secret, secret, k) {
      assert head[1..] + secret == (head + secret)[1..];
      if OccursAt(head[1..] + secret, secret, k) {
        OccursLater(head + secret, secret, k, 1);
      }
    }
  }

  /** What the marker agrees with, where the secret reaches past one or both of its ends. */
  lemma Straddles(secret: string, d: int)
    requires -|secret| < d < |REDACTED| && Agrees(secret, d)
    ensures var head, tail := if d < 0 then secret[..-d] else "", if d + |secret| > |REDACTED| then secret[|REDACTED| - d..] else "";
      Contains(head + REDACTED + tail, secret)
  {
    var head, tail := if d < 0 then secret[..-d] else "", if d + |secret| > |REDACTED| then secret[|REDACTED| - d..] else "";
    var text, k := head + REDACTED + tail, if d < 0 then 0 else d;
    assert k + |secret| <= |text|;
    forall i | 0 <= i < |secret| ensures text[k + i] == secret[i] {
    }
    assert text[k..][..|secret|] == secret;
    assert OccursAt(text, secret, k);
  }

  lemma OneReplacement(text: string, secret: string)
    requires secret != ""
    ensures ReplaceAll(text, [secret]) == Replace(text, secret)
  {
    assert ReplaceAll(text, [secret][..0]) == text;
  }

  /** Putting the secret where the marker is to stand makes it return around the marker. */
  lemma PlacementLeaks(secret: string, d: int)
    requires secret != "" && -|secret| < d < |REDACTED| && Agrees(secret, d)
    requires EndsAtFirst(if d < 0 then secret[..-d] else "", secret)
    ensures !Protected(secret, [secret])
  {
    hide EndsAtFirst, Agrees, Contains, Protected, Replace, ReplaceAll;
    var head, tail := if d < 0 then secret[..-d] else "", if d + |secret| > |REDACTED| then secret[|REDACTED| - d..] else "";
    var text := head + secret + tail;
    Straddles(secret, d);
    ReplaceAtFirst(head, secret, tail);
    ShortIsUntouched(tail, secret);
    OneReplacement(text, secret);
    LeakIsUnprotected(text, secret, [secret]);
  }

  lemma LeakIsUnprotected(text: string, secret: string, secrets: seq<string>)
    requires "" !in secrets && Contains(ReplaceAll(text, secrets), secret)
    ensures !Protected(secret, secrets)
  {
  }

  lemma ReturningLeaks(secret: string)
    requires secret != "" && Returns(secret)
    ensures !Protected(secret, [secret])
  {
    hide Agrees, Contains, EndsAtFirst, Protected;
    if Contains(REDACTED, secret) {
      MarkerWordLeaks([secret], {secret}, secret);
    } else if d :| 0 < d < |REDACTED| && Agrees(secret, d) {
      EmptyHead(secret);
      PlacementLeaks(secret, d);
    } else {
      var n :| 0 <= n < |secret| && Agrees(secret, -n) && EndsAtFirst(secret[..n], secret);
      assert n == 0 ==> secret[..n] == "";
      PlacementLeaks(secret, -n);
    }
  }

  lemma ShortIsUntouched(s: string, secret: string)
    requires secret != "" && |s| < |secret|
    ensures Replace(s, secret) == s
  {
  }

  lemma EmptyHead(secret: string)
    ensures EndsAtFirst("", secret)
  {
  }

  /** Wherever the secret is found in a result, it meets the condition. */
  lemma {:induction false} LeakReturns(s: string, secret: string, k: nat)
    requires secret != "" && OccursAt(Replace(s, secret), secret, k)
    ensures Returns(secret)
    decreases |s|
  {
    hide Agrees, EndsAtFirst, Returns;
    var result := Replace(s, secret);
    assert |s| >= |secret|;
    if secret <= s {
      var rest := Replace(s[|secret|..], secret);
      assert result == REDACTED + rest && result[|REDACTED|..] == rest;
      if k < |REDACTED| {
        InsideMarker(rest, secret, k);
        StartsInMarker(secret, k);
      } else {
        OccursInRest(result, secret, k, |REDACTED|);
        LeakReturns(s[|secret|..], secret, k - |REDACTED|);
      }
    } else if k > 0 {
      assert result[1..] == Replace(s[1..], secret);
      OccursInRest(result, secret, k, 1);
      LeakReturns(s[1..], secret, k - 1);
    } else {
      assert result[0..] == result;
      StartsBeforeMarker(s, secret);
    }
  }

  lemma StartsInMarker(secret: string, k: nat)
    requires secret != "" && k < |REDACTED| && Agrees(secret, k)
    ensures Returns(secret)
  {
    hide Agrees;
    if k == 0 {
      EmptyHead(secret);
      assert secret[..0] == "";
    }
  }

  lemma StartsBeforeMarker(s: string, secret: string)
    requires secret != "" && !(secret <= s) && secret <= Replace(s, secret)
    ensures Returns(secret)
  {
    hide Replace, Contains, Agrees, EndsAtFirst;
    var parts := ReplaceIsJoin(s, secret);
    var head := parts[0];
    if |parts| == 1 {
      PrefixOccurs(head, secret);
    } else {
      var rest := Join(parts[1..], REDACTED);
      assert Replace(s, secret) == head + REDACTED + rest;
      var n := |head|;
      PrefixIsHead(head, secret, REDACTED + rest);
      assert head + REDACTED + rest == head + (REDACTED + rest);
      var tail := secret[n..];
      assert Agrees(secret, -n) by {
        PrefixAgrees(head, secret, rest);
      }
      assert secret[..n] == head;
    }
  }

  lemma PrefixOccurs(s: string, t: string)
    requires t <= s
    ensures OccursAt(s, t, 0) && Contains(s, t)
  {
    assert s[0..] == s;
    assert OccursAt(s, t, 0);
  }

  lemma PrefixIsHead(head: string, secret: string, rest: string)
    requires EndsAtFirst(head, secret) && secret <= head + rest && secret != ""
    ensures |head| < |secret| && head <= secret
  {
    if |secret| <= |head| {
      assert secret <= head;
      assert secret <= head + secret;
      PrefixOccurs(head + secret, secret);
    }
  }

  lemma PrefixAgrees(head: string, secret: string, rest: string)
    requires |head| < |secret| && secret <= head + REDACTED + rest
    ensures Agrees(secret, -|head|)
  {
    var whole := head + REDACTED + rest;
    forall i | 0 <= i < |secret| && 0 <= i - |head| < |REDACTED| ensures secret[i] == REDACTED[i - |head|] {
      assert secret[i] == whole[i];
    }
  }

  /** Main result: a registry of one secret protects it exactly when it cannot return beside the
      marker. */
  lemma OneSecretIsProtectedIff(secret: string)
    requires secret != ""
    ensures Protected(secret, [secret]) <==> !Returns(secret)
  {
    hide Returns, Contains;
    if Returns(secret) {
      ReturningLeaks(secret);
    } else {
      forall text ensures !Contains(ReplaceAll(text, [secret]), secret) {
        OneReplacement(text, secret);
        if Contains(Replace(text, secret), secret) {
          LeakHasPlace(text, secret);
        }
      }
    }
  }

  lemma LeakHasPlace(text: string, secret: string)
    requires secret != "" && Contains(Replace(text, secret), secret)
    ensures Returns(secret)
  {
    var k: nat :| OccursAt(Replace(text, secret), secret, k);
    LeakReturns(text, secret, k);
  }

  /** And so for whole values. */
  lemma OneSecretIsCleanIff(secret: string, casefold: string -> string)
    requires secret != ""
    ensures (forall value: Value :: Clean(RedactValue(value, [secret], casefold), [secret])) <==> !Returns(secret)
  {
    OneSecretIsProtectedIff(secret);
    if Returns(secret) {
      TextLeaks(secret, [secret], casefold);
    } else {
      forall value: Value { ProtectedIsClean(value, [secret], casefold); }
    }
  }

  lemma TextLeaks(secret: string, secrets: seq<string>, casefold: string -> string)
    requires "" !in secrets && secret in secrets && !Protected(secret, secrets)
    ensures exists value: Value :: !Clean(RedactValue(value, secrets, casefold), secrets)
  {
    hide Contains;
    var text :| Contains(ReplaceAll(text, secrets), secret);
    assert !Clean(RedactValue(Str(text), secrets, casefold), secrets);
  }

  // ----- Any registry: the exact condition on one secret -----

  /** A secret that agrees with the marker somewhere leaks from a registry with one more secret, a
      single character `x` that it does not use. */
  lemma TouchingLeaks(secret: string, d: int, x: char)
    requires |secret| > 1 && x !in secret && -|secret| < d < |REDACTED| && Agrees(secret, d)
    ensures !Protected(secret, [secret, [x]])
  {
    hide Agrees, Contains, Replace;
    var head, tail := if d < 0 then secret[..-d] else "", if d + |secret| > |REDACTED| then secret[|REDACTED| - d..] else "";
    var text := head + [x] + tail;
    Straddles(secret, d);
    SpareCharacter(head, tail, x, secret);
    assert x in text && |text| <= |secret|;
    LongerIsAbsent(text, secret);
    AbsentIsUntouched(text, secret);
    ReplaceAtFirst(head, [x], tail);
    AbsentIsUntouched(tail, [x]);
    var secrets := [secret, [x]];
    assert secrets[..1] == [secret] && secrets[..1][..0] == [];
    assert ReplaceAll(text, secrets[..1]) == Replace(ReplaceAll(text, secrets[..1][..0]), secret) == text;
    assert ReplaceAll(text, secrets) == Replace(text, [x]) == head + REDACTED + tail;
  }

  lemma SpareCharacter(head: string, tail: string, x: char, secret: string)
    requires x !in secret && head <= secret && (forall c | c in tail :: c in secret)
    ensures EndsAtFirst(head, [x]) && !Contains(tail, [x])
  {
    forall k | 0 <= k < |head| ensures !OccursAt(head + [x], [x], k) {
      assert (head + [x])[k..][0] == head[k] == secret[k];
    }
    forall k: nat ensures !OccursAt(tail, [x], k) {
      if k < |tail| {
        assert tail[k..][0] == tail[k] && tail[k] in tail;
      }
    }
  }

  ghost predicate AlwaysProtected(secret: string) {
    forall secrets, registered | ReplacementOrder(secrets, registered) && secret in registered ::
      Protected(secret, secrets)
  }

  /** Main result: exactly the secrets that stay apart from the marker are protected in every
      registry, whatever else is registered. `x` is any character the secret does not use. */
  lemma AlwaysProtectedIff(secret: string, x: char)
    requires secret != "" && x !in secret
    ensures AlwaysProtected(secret) <==> Apart(secret)
  {
    hide Contains, Agrees;
    if Apart(secret) {
      forall secrets, registered | ReplacementOrder(secrets, registered) && secret in registered
        ensures Protected(secret, secrets)
      {
        forall text { NoSecretSurvives(text, secrets, secret); }
      }
    } else {
      var d :| -|secret| < d < |REDACTED| && Agrees(secret, d);
      if |secret| > 1 {
        assert ReplacementOrder([secret, [x]], {secret, [x]});
        TouchingLeaks(secret, d, x);
      } else {
        assert ReplacementOrder([secret], {secret});
        SingleCharacterInMarker(secret, d);
        MarkerWordLeaks([secret], {secret}, secret);
      }
    }
  }

  lemma SingleCharacterInMarker(secret: string, d: int)
    requires |secret| == 1 && 0 <= d < |REDACTED| && Agrees(secret, d)
    ensures Contains(REDACTED, secret)
  {
    assert REDACTED[d..][..1] == secret;
    assert OccursAt(REDACTED, secret, d);
  }

  /** The condition of one secret is weaker than that of any company, as it must be: `[[` never
      returns beside its own marker, but does beside another's. */
  lemma CompanyMatters()
    ensures Protected("[[", ["[["]) && !Apart("[[") && !Protected("[[", ["[[", "a"])
  {
    hide Protected, Returns;
    assert Agrees("[[", -1);
    TouchingLeaks("[[", -1, 'a');
    OneSecretIsProtectedIff("[[");
    DoubleBracketStays();
  }

  lemma DoubleBracketStays()
    ensures !Returns("[[")
  {
    hide OccursAt, Agrees, EndsAtFirst;
    var secret := "[[";
    forall k: nat ensures !OccursAt(REDACTED, secret, k) {
      NoDoubleBracket(k);
    }
    forall d | 0 < d < |REDACTED| ensures !Agrees(secret, d) {
      DisagreesAt(secret, d, 0);
    }
    DisagreesAt(secret, 0, 1);
    FoundEarlier();
  }

  lemma NoDoubleBracket(k: nat)
    ensures !OccursAt(REDACTED, "[[", k)
  {
    if k < 9 {
      assert REDACTED[k..][1] == REDACTED[k + 1] != '[';
    }
  }

  lemma DisagreesAt(t: string, d: nat, i: nat)
    requires i < |t| && i + d < |REDACTED| && t[i] != REDACTED[i + d]
    ensures !Agrees(t, d)
  {
  }

  lemma FoundEarlier()
    ensures !EndsAtFirst("[["[..1], "[[")
  {
    var secret := "[[";
    var text := secret[..1] + secret;
    assert text[0..][..2] == secret;
    assert OccursAt(text, secret, 0);
  }

  /** Brackets as such do no harm. */
  lemma BracketsCanBeHarmless()
    ensures Apart("p[ss]w")
  {
    var secret := "p[ss]w";
    forall d | -|secret| < d < |REDACTED| ensures !Agrees(secret, d) {
      if d > 0 {
        assert secret[0] == 'p' != REDACTED[d];
      } else if d == -1 {
        assert secret[2] != REDACTED[1];
      } else {
        assert secret[-d] != '[' == REDACTED[0];
      }
    }
  }

  /** Brackets matter: a secret that ends like the marker begins can be re-created beside it. */
  lemma BracketedSecretCanReturn()
    ensures !Contains(REDACTED, "x[") && Returns("x[")
    ensures Replace("xx[", "x[") == "x[REDACTED]" && Contains("x[REDACTED]", "x[")
  {
    hide Replace, Returns, Contains;
    var secret := "x[";
    assert Replace("xx[", secret) == "x[REDACTED]" by {
      EndsFirstAt("x", secret);
      ReplaceAtFirst("x", secret, "");
      ShortIsUntouched("", secret);
      assert "x" + secret + "" == "xx[";
    }
    PrefixOccurs("x[REDACTED]", secret);
    LeakReturns("xx[", secret, 0);
    NoFirstCharacter(secret);
  }

  lemma EndsFirstAt(c: string, secret: string)
    requires c == "x" && secret == "x["
    ensures EndsAtFirst(c, secret)
  {
    var text := c + secret;
    assert text[0..] == text && text[1] == 'x' != secret[1];
  }

  lemma NoFirstCharacter(secret: string)
    requires secret != "" && secret[0] !in REDACTED
    ensures !Contains(REDACTED, secret)
  {
    forall k: nat ensures !OccursAt(REDACTED, secret, k) {
      if k < |REDACTED| {
        assert REDACTED[k..][0] == REDACTED[k] && REDACTED[k] in REDACTED;
      }
    }
  }

  // ----- Shape, keys and idempotence -----

  /** A text key whose caseless form is one of the six names. */
  ghost predicate NamesSecret(key: Key, casefold: string -> string) {
    key.Text? &&
    var name := casefold(key.text);
    || name == "api_key" || name == "api_secret" || name == "secret"
    || name == "token" || name == "authorization" || name == "password"
  }

  /** `b` has the containers, entry order and keys of `a`. An exception turns into text, a value
      under a secret key into the marker, and an opaque object is the same object. */
  ghost predicate SameShape(a: Value, b: Value, casefold: string -> string)
    decreases a
  {
    match a
    case Str(_) => b.Str?
    case Failure(_) => b.Str?
    case Mapping(entries) =>
      b.Mapping? && |b.entries| == |entries| &&
      forall i | 0 <= i < |entries| ::
        b.entries[i].0 == entries[i].0 &&
        if NamesSecret(entries[i].0, casefold) then b.entries[i].1 == Str("[REDACTED]")
        else SameShape(entries[i].1, b.entries[i].1, casefold)
    case List(items) =>
      b.List? && |b.items| == |items| && forall i | 0 <= i < |items| :: SameShape(items[i], b.items[i], casefold)
    case Tuple(items) =>
      b.Tuple? && |b.items| == |items| && forall i | 0 <= i < |items| :: SameShape(items[i], b.items[i], casefold)
    case Opaque(_) => b == a
  }

  /** `b` is the redaction of `a`, said without the redactor: at every depth an entry under a secret
      name holds the marker and every other one the redaction of its own value; an exception comes
      out as the text its message would; and text is replaced secret by secret. */
  ghost predicate RedactionOf(a: Value, b: Value, secrets: seq<string>, casefold: string -> string)
    requires "" !in secrets
    decreases a
  {
    match a
    case Str(text) => b == Str(ReplaceAll(text, secrets))
    case Failure(message) => b == Str(ReplaceAll(message, secrets))
    case Mapping(entries) =>
      b.Mapping? && |b.entries| == |entries| &&
      forall i | 0 <= i < |entries| ::
        b.entries[i].0 == entries[i].0 &&
        if NamesSecret(entries[i].0, casefold) then b.entries[i].1 == Str("[REDACTED]")
        else RedactionOf(entries[i].1, b.entries[i].1, secrets, casefold)
    case List(items) =>
      b.List? && |b.items| == |items| && forall i | 0 <= i < |items| :: RedactionOf(items[i], b.items[i], secrets, casefold)
    case Tuple(items) =>
      b.Tuple? && |b.items| == |items| && forall i | 0 <= i < |items| :: RedactionOf(items[i], b.items[i], secrets, casefold)
    case Opaque(_) => b == a
  }

  lemma SecretNames(key: Key, casefold: string -> string)
    ensures SecretKey(key, casefold) <==> NamesSecret(key, casefold)
  {
  }

  /** Main result: the redactor computes the redaction, under whatever case a key is written in. */
  lemma {:induction false} RedactsEverything(value: Value, secrets: seq<string>, casefold: string -> string)
    requires "" !in secrets
    ensures RedactionOf(value, RedactValue(value, secrets, casefold), secrets, casefold)
    decreases value
  {
    hide SecretKey, NamesSecret, ReplaceAll;
    match value
    case Str(_) =>
    case Failure(_) =>
    case Mapping(entries) =>
      forall i | 0 <= i < |entries|
        ensures SecretKey(entries[i].0, casefold) <==> NamesSecret(entries[i].0, casefold)
        ensures RedactionOf(entries[i].1, RedactValue(entries[i].1, secrets, casefold), secrets, casefold)
      {
        SecretNames(entries[i].0, casefold);
        RedactsEverything(entries[i].1, secrets, casefold);
      }
    case List(items) =>
      forall i | 0 <= i < |items| { RedactsEverything(items[i], secrets, casefold); }
    case Tuple(items) =>
      forall i | 0 <= i < |items| { RedactsEverything(items[i], secrets, casefold); }
    case Opaque(_) =>
  }

  /** And no value has two redactions. */
  lemma {:induction false} RedactionIsUnique(a: Value, b: Value, c: Value, secrets: seq<string>, casefold: string -> string)
    requires "" !in secrets && RedactionOf(a, b, secrets, casefold) && RedactionOf(a, c, secrets, casefold)
    ensures b == c
    decreases a
  {
    hide NamesSecret, ReplaceAll;
    match a
    case Str(_) =>
    case Failure(_) =>
    case Mapping(entries) =>
      forall i | 0 <= i < |entries| ensures b.entries[i] == c.entries[i] {
        if !NamesSecret(entries[i].0, casefold) {
          RedactionIsUnique(entries[i].1, b.entries[i].1, c.entries[i].1, secrets, casefold);
        }
        assert b.entries[i] == (b.entries[i].0, b.entries[i].1) && c.entries[i] == (c.entries[i].0, c.entries[i].1);
      }
      assert b.entries == c.entries;
    case List(items) =>
      forall i | 0 <= i < |items| { RedactionIsUnique(items[i], b.items[i], c.items[i], secrets, casefold); }
      assert b.items == c.items;
    case Tuple(items) =>
      forall i | 0 <= i < |items| { RedactionIsUnique(items[i], b.items[i], c.items[i], secrets, casefold); }
      assert b.items == c.items;
    case Opaque(_) =>
  }

  lemma {:induction false} ShapeAndKeysPreserved(value: Value, secrets: seq<string>, casefold: string -> string)
    requires "" !in secrets
    ensures SameShape(value, RedactValue(value, secrets, casefold), casefold)
    decreases value
  {
    hide SecretKey, NamesSecret, ReplaceAll;
    match value
    case Str(_) =>
    case Failure(_) =>
    case Mapping(entries) =>
      forall i | 0 <= i < |entries|
        ensures SecretKey(entries[i].0, casefold) <==> NamesSecret(entries[i].0, casefold)
        ensures SameShape(entries[i].1, RedactValue(entries[i].1, secrets, casefold), casefold)
      {
        SecretNames(entries[i].0, casefold);
        ShapeAndKeysPreserved(entries[i].1, secrets, casefold);
      }
    case List(items) =>
      forall i | 0 <= i < |items| { ShapeAndKeysPreserved(items[i], secrets, casefold); }
    case Tuple(items) =>
      forall i | 0 <= i < |items| { ShapeAndKeysPreserved(items[i], secrets, casefold); }
    case Opaque(_) =>
  }

  lemma {:induction false} CleanTextUnchanged(text: string, secrets: seq<string>)
    requires "" !in secrets && forall s | s in secrets :: !Contains(text, s)
    ensures ReplaceAll(text, secrets) == text
  {
    if secrets != [] {
      CleanTextUnchanged(text, secrets[..|secrets| - 1]);
      AbsentIsUntouched(text, secrets[|secrets| - 1]);
    }
  }

  /** Redacting a second time changes nothing. */
  lemma {:induction false} RedactionIsIdempotent(value: Value, secrets: seq<string>, casefold: string -> string)
    requires "" !in secrets && MarkerSafe(secrets)
    ensures var once := RedactValue(value, secrets, casefold);
      RedactValue(once, secrets, casefold) == once
    decreases value
  {
    RedactedIsClean(value, secrets, casefold);
    match value
    case Str(text) => CleanTextUnchanged(ReplaceAll(text, secrets), secrets);
    case Failure(message) => CleanTextUnchanged(ReplaceAll(message, secrets), secrets);
    case Mapping(entries) =>
      forall i | 0 <= i < |entries| { RedactionIsIdempotent(entries[i].1, secrets, casefold); }
    case List(items) =>
      forall i | 0 <= i < |items| { RedactionIsIdempotent(items[i], secrets, casefold); }
    case Tuple(items) =>
      forall i | 0 <= i < |items| { RedactionIsIdempotent(items[i], secrets, casefold); }
    case Opaque(_) =>
  }

  /** Longest first: a secret standing in a text on its own leaves nothing of itself behind, even
      when shorter secrets are parts of it. */
  lemma WholeSecretBecomesMarker(secrets: seq<string>, registered: set<string>, secret: string)
    requires ReplacementOrder(secrets, registered) && MarkerSafe(secrets) && secret in secrets
    ensures ReplaceAll(secret, secrets) == REDACTED
  {
    var i :| 0 <= i < |secrets| && secrets[i] == secret;
    hide Replace, ReplaceAll, Contains, Apart;
    SecretBecomesMarker(secrets, i, i);
    NextReplacement(secret, secrets, i);
    ReplacesItself(secret);
    MarkerIsClean(secrets);
    MarkerStays(secret, secrets, i + 1, |secrets|);
    assert secrets[..|secrets|] == secrets;
  }

  lemma {:induction false} MarkerStays(text: string, secrets: seq<string>, first: nat, n: nat)
    requires "" !in secrets && first <= n <= |secrets|
    requires ReplaceAll(text, secrets[..first]) == REDACTED
    requires forall s | s in secrets :: !Contains(REDACTED, s)
    ensures ReplaceAll(text, secrets[..n]) == REDACTED
    decreases n
  {
    if first < n {
      hide Replace, ReplaceAll, Contains;
      MarkerStays(text, secrets, first, n - 1);
      NextReplacement(text, secrets, n - 1);
      AbsentIsUntouched(REDACTED, secrets[n - 1]);
    }
  }
}
