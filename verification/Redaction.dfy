/** Redaction of sensitive values in JSON trees before they are written to the audit trail. */
module Redaction {
  import opened Wrappers
  import opened Strings

  datatype Json =
    | Object(fields: map<string, Json>)
    | Array(items: seq<Json>)
    | Text(text: string)
    | Number(number: real)
    | Flag(flag: bool)
    | Null

  const REDACTED := Text("[REDACTED]")

  /** `IsSensitiveKey` */
  predicate Sensitive(key: string) {
    var k := NormalizeKey(key);
    Contains(k, "password") || Contains(k, "token") || Contains(k, "secret") || Contains(k, "otp")
  }

  /** The words that make a key sensitive. */
  const SECRETS: seq<string> := ["password", "token", "secret", "otp"]

  predicate NoSpaceIn(word: string) { word != "" && forall k :: 0 <= k < |word| ==> !IsSpace(word[k]) }

  /** The word occurs in the key, in whatever case. */
  ghost predicate HasWord(key: string, word: string) { exists i :: Occurs(Lower(key), word, i) }

  /** A word is found in a normalised key exactly where it is in the key itself, whatever blanks were trimmed. */
  lemma TrimHidesNoWord(key: string, word: string)
    requires NoSpaceIn(word)
    ensures Contains(NormalizeKey(key), word) <==> HasWord(key, word)
  {
    var pre, post := TrimCutsSpace(key);
    var n, low, a := NormalizeKey(key), Lower(key), |pre|;
    var b := a + |n|;
    assert n == low[a..b];
    ContainsIff(n, word);
    if i :| Occurs(n, word, i) { PartOccurs(low, a, b, word, a + i); }
    if i :| Occurs(low, word, i) {
      forall k | 0 <= k < a || b <= k < |low| ensures IsSpace(low[k]) { LowerKeepsSpace(key[k]); }
      WordInside(low, word, i, a, b);
      PartOccurs(low, a, b, word, i);
    }
  }

  lemma LowerKeepsSpace(c: char)
    ensures IsSpace(LowerChar(c)) <==> IsSpace(c)
  {
  }

  lemma PartOccurs(s: string, a: nat, b: nat, word: string, i: int)
    requires a <= b <= |s| && a <= i && i + |word| <= b
    ensures Occurs(s[a..b], word, i - a) <==> Occurs(s, word, i)
  {
    if i + |word| <= b {
      var part := s[a..b][i - a..i - a + |word|];
      assert |part| == |s[i..i + |word|]| && forall k :: 0 <= k < |part| ==> part[k] == s[i + k];
    }
  }

  lemma WordInside(s: string, word: string, i: int, a: nat, b: nat)
    requires NoSpaceIn(word) && Occurs(s, word, i) && a <= b <= |s|
    requires forall k :: 0 <= k < a || b <= k < |s| ==> IsSpace(s[k])
    ensures a <= i && i + |word| <= b
  {
    assert s[i] == s[i..i + |word|][0] == word[0];
    assert s[i + |word| - 1] == s[i..i + |word|][|word| - 1] == word[|word| - 1];
  }

  lemma SecretsAreWords()
    ensures forall w :: w in SECRETS ==> NoSpaceIn(w)
  {
  }

  lemma SecretsAreFour(w: string)
    ensures w in SECRETS <==> w == "password" || w == "token" || w == "secret" || w == "otp"
  {
    assert SECRETS[0] == "password" && SECRETS[1] == "token" && SECRETS[2] == "secret" && SECRETS[3] == "otp";
  }

  /** A key is sensitive exactly when one of the four words occurs in it somewhere, in whatever case. */
  lemma SensitiveIff(key: string)
    ensures Sensitive(key) <==> exists w :: w in SECRETS && HasWord(key, w)
  {
    var n := NormalizeKey(key);
    SecretsAreWords();
    forall w | w in SECRETS ensures Contains(n, w) <==> HasWord(key, w) { TrimHidesNoWord(key, w); }
    SensitiveIsContains(key);
  }

  lemma SensitiveIsContains(key: string)
    ensures Sensitive(key) <==> exists w :: w in SECRETS && Contains(NormalizeKey(key), w)
  {
    var n := NormalizeKey(key);
    SecretsAreFour("password");
    SecretsAreFour("token");
    SecretsAreFour("secret");
    SecretsAreFour("otp");
    if w :| w in SECRETS && Contains(n, w) { SecretsAreFour(w); }
  }

  /** Which keys are sensitive. Everything below holds of every such rule, the source's among them. */
  type Rule = string -> bool

  function Redact(j: Json, rule: Rule): Json {
    match j
    case Object(fields) => Object(map k | k in fields :: RedactField(rule, k, Redact(fields[k], rule)))
    case Array(items) => Array(seq(|items|, i requires 0 <= i < |items| => Redact(items[i], rule)))
    case _ => j
  }

  /** What a field becomes, given its redacted value. */
  function RedactField(rule: Rule, key: string, redacted: Json): Json { if rule(key) then REDACTED else redacted }

  // ---------- The loops that build the redacted copy ----------

  method RedactSensitiveValue(j: Json, rule: Rule) returns (r: Json)
    ensures r == Redact(j, rule)
    decreases j, 2
  {
    match j {
      case Object(fields) => var out := RedactSensitiveMap(j, rule); r := Object(out);
      case Array(items) => var out := RedactSensitiveSlice(j, rule); r := Array(out);
      case _ => r := j;
    }
  }

  method RedactSensitivePayload(j: Json) returns (r: Json)
    ensures r == Redact(j, Sensitive)
  {
    r := RedactSensitiveValue(j, Sensitive);
  }

  method RedactSensitiveMap(j: Json, rule: Rule) returns (out: map<string, Json>)
    requires j.Object?
    ensures Object(out) == Redact(j, rule)
    decreases j, 1
  {
    out := map[];
    ghost var whole := Redact(j, rule).fields;
    var todo := j.fields.Keys;
    while todo != {}
      invariant todo <= whole.Keys && forall k :: k in out <==> k in whole && k !in todo
      invariant forall k :: k in out ==> out[k] == whole[k]
      decreases todo
    {
      var k :| k in todo;
      todo := todo - {k};
      var value := RedactEntry(j, rule, k);
      out := out[k := value];
    }
  }

  method RedactEntry(j: Json, rule: Rule, key: string) returns (value: Json)
    requires j.Object? && key in j.fields
    ensures value == Redact(j, rule).fields[key]
    decreases j, 0
  {
    if rule(key) { return REDACTED; }
    value := RedactSensitiveValue(j.fields[key], rule);
  }

  method RedactSensitiveSlice(j: Json, rule: Rule) returns (out: seq<Json>)
    requires j.Array?
    ensures Array(out) == Redact(j, rule)
    decreases j, 0
  {
    out := [];
    for n := 0 to |j.items|
      invariant |out| == n && forall i :: 0 <= i < n ==> out[i] == Redact(j, rule).items[i]
    {
      var value := RedactSensitiveValue(j.items[n], rule);
      out := out + [value];
    }
  }

  // ---------- What redaction keeps and what it hides ----------

  /** Redacting again changes nothing. */
  lemma {:induction false} Idempotent(j: Json, rule: Rule)
    ensures Redact(Redact(j, rule), rule) == Redact(j, rule)
  {
    match j
    case Object(fields) =>
      forall k | k in fields && !rule(k) ensures Redact(Redact(fields[k], rule), rule) == Redact(fields[k], rule) {
        Idempotent(fields[k], rule);
      }
      assert Redact(Redact(j, rule), rule).fields == Redact(j, rule).fields;
    case Array(items) =>
      forall i | 0 <= i < |items| ensures Redact(Redact(items[i], rule), rule) == Redact(items[i], rule) {
        Idempotent(items[i], rule);
      }
      assert Redact(Redact(j, rule), rule).items == Redact(j, rule).items;
    case _ =>
  }

  /** Two trees that may differ only below sensitive keys. */
  predicate SameOutside(a: Json, b: Json, rule: Rule) {
    match (a, b)
    case (Object(f), Object(g)) => f.Keys == g.Keys && forall k :: k in f && !rule(k) ==> SameOutside(f[k], g[k], rule)
    case (Array(s), Array(t)) => |s| == |t| && forall i :: 0 <= i < |s| ==> SameOutside(s[i], t[i], rule)
    case _ => a == b
  }

  /** The redacted tree tells exactly what is outside the sensitive keys: no less, and nothing of what is below them. */
  lemma {:induction false} SameRedactionIffSameOutside(a: Json, b: Json, rule: Rule)
    ensures Redact(a, rule) == Redact(b, rule) <==> SameOutside(a, b, rule)
    decreases a, 1
  {
    match (a, b)
    case (Object(_), Object(_)) => SameFields(a, b, rule);
    case (Array(s), Array(t)) =>
      forall i | 0 <= i < |s| && i < |t|
          ensures Redact(s[i], rule) == Redact(t[i], rule) <==> SameOutside(s[i], t[i], rule) {
        SameRedactionIffSameOutside(s[i], t[i], rule);
      }
      var rs, rt := Redact(a, rule).items, Redact(b, rule).items;
      if SameOutside(a, b, rule) { assert rs == rt; }
      if rs == rt {
        forall i | 0 <= i < |s| ensures SameOutside(s[i], t[i], rule) { assert rs[i] == rt[i]; }
      }
    case _ =>
  }

  lemma {:induction false} SameFields(a: Json, b: Json, rule: Rule)
    requires a.Object? && b.Object?
    ensures Redact(a, rule) == Redact(b, rule) <==> SameOutside(a, b, rule)
    decreases a, 0
  {
    var f, g, rf, rg := a.fields, b.fields, Redact(a, rule).fields, Redact(b, rule).fields;
    assert rf.Keys == f.Keys && rg.Keys == g.Keys;
    forall k | k in f && k in g ensures rf[k] == rg[k] <==> rule(k) || SameOutside(f[k], g[k], rule) {
      if !rule(k) { SameRedactionIffSameOutside(f[k], g[k], rule); }
    }
    if f.Keys == g.Keys {
      assert rf == rg <==> forall k :: k in f ==> rf[k] == rg[k];
    }
  }

  // ---------- Paths ----------

  datatype Hop = Key(key: string) | Index(index: nat)

  function At(j: Json, path: seq<Hop>): Option<Json> {
    if path == [] then Some(j)
    else match (path[0], j)
      case (Key(k), Object(fields)) => if k in fields then At(fields[k], path[1..]) else None
      case (Index(i), Array(items)) => if i < |items| then At(items[i], path[1..]) else None
      case _ => None
  }

  predicate Crosses(path: seq<Hop>, rule: Rule) {
    path != [] && ((path[0].Key? && rule(path[0].key)) || Crosses(path[1..], rule))
  }

  /**
   At a path that crosses no sensitive key there is the redaction of what was there, and nothing
   where there was nothing.
   */
  lemma {:induction false} KeptOutside(j: Json, path: seq<Hop>, rule: Rule)
    requires !Crosses(path, rule)
    ensures At(Redact(j, rule), path) == (if At(j, path).None? then None else Some(Redact(At(j, path).value, rule)))
  {
    if path != [] {
      match (path[0], j)
      case (Key(k), Object(fields)) => if k in fields { KeptOutside(fields[k], path[1..], rule); }
      case (Index(i), Array(items)) => if i < |items| { KeptOutside(items[i], path[1..], rule); }
      case _ =>
    }
  }

  /** At and below a sensitive key there is only the mark. */
  lemma {:induction false} HiddenInside(j: Json, path: seq<Hop>, rule: Rule)
    requires Crosses(path, rule)
    ensures At(Redact(j, rule), path).None? || At(Redact(j, rule), path) == Some(REDACTED)
  {
    match (path[0], j)
    case (Key(k), Object(fields)) =>
      if k in fields {
        if rule(k) {
          if |path| > 1 { assert path[1..] != []; }
        } else {
          HiddenInside(fields[k], path[1..], rule);
        }
      }
    case (Index(i), Array(items)) => if i < |items| { HiddenInside(items[i], path[1..], rule); }
    case _ =>
  }

  /** Where a sensitive key stood there is the mark, if the way to it crosses no other. */
  lemma {:induction false} MarkedAt(j: Json, path: seq<Hop>, key: string, rule: Rule)
    requires !Crosses(path, rule) && rule(key)
    requires At(j, path).Some? && At(j, path).value.Object? && key in At(j, path).value.fields
    ensures At(Redact(j, rule), path + [Key(key)]) == Some(REDACTED)
  {
    if path == [] {
      assert path + [Key(key)] == [Key(key)];
      assert At(REDACTED, []) == Some(REDACTED);
    } else {
      assert (path + [Key(key)])[1..] == path[1..] + [Key(key)];
      match (path[0], j)
      case (Key(k), Object(fields)) => MarkedAt(fields[k], path[1..], key, rule);
      case (Index(i), Array(items)) => MarkedAt(items[i], path[1..], key, rule);
    }
  }

  // ---------- The source's own rule ----------

  /** Some key on the way has one of the four words in it. */
  ghost predicate NamesSecret(path: seq<Hop>) {
    exists h, w :: h in path && h.Key? && w in SECRETS && HasWord(h.key, w)
  }

  lemma {:induction false} CrossesIff(path: seq<Hop>)
    ensures Crosses(path, Sensitive) <==> NamesSecret(path)
  {
    if path != [] {
      CrossesIff(path[1..]);
      if path[0].Key? { SensitiveIff(path[0].key); }
      assert path == [path[0]] + path[1..];
      if NamesSecret(path[1..]) {
        var h, w :| h in path[1..] && h.Key? && w in SECRETS && HasWord(h.key, w);
        assert h in path;
      }
      if path[0].Key? && Sensitive(path[0].key) {
        var w :| w in SECRETS && HasWord(path[0].key, w);
        assert path[0] in path;
      }
    }
  }

  /**
   In a redacted payload there is nothing but the mark at or below a key with one of the four words
   in it, whatever its case and the blanks around it; every other path leads to what it led to, redacted.
   */
  lemma PayloadIsRedacted(j: Json, path: seq<Hop>)
    ensures var r := At(Redact(j, Sensitive), path);
            if NamesSecret(path) then r == None || r == Some(REDACTED)
            else r == (if At(j, path).None? then None else Some(Redact(At(j, path).value, Sensitive)))
  {
    CrossesIff(path);
    if NamesSecret(path) { HiddenInside(j, path, Sensitive); } else { KeptOutside(j, path, Sensitive); }
  }
}
