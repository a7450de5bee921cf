/** Permission keys `resource:action`, how they are written, read back and matched. */
module Authscope {
  import opened Strings

  const SUPERADMIN := "superadmin"

  /** `PermissionKey` */
  function PermissionKey(resource: string, action: string): string {
    KeyOf(NormalizeKey(resource), NormalizeKey(action))
  }

  function KeyOf(r: string, a: string): string { if r == "" || a == "" then "" else r + ":" + a }

  function ColonAt(s: string): (i: nat)
    ensures i <= |s| && (i < |s| ==> s[i] == ':')
  {
    if s == "" || s[0] == ':' then 0 else 1 + ColonAt(s[1..])
  }

  lemma {:induction false} ColonIsFirst(s: string)
    ensures ':' !in s[..ColonAt(s)]
  {
    if s != "" && s[0] != ':' {
      ColonIsFirst(s[1..]);
      assert s[..ColonAt(s)] == [s[0]] + s[1..][..ColonAt(s[1..])];
    }
  }

  /** `normalizePermissionKey`: split at the first colon and write the key again. */
  function NormalizePermissionKey(permission: string): string {
    var p := Trim(permission);
    var i := ColonAt(p);
    if i == |p| then "" else PermissionKey(p[..i], p[i + 1..])
  }

  datatype Scope = Scope(userId: string, role: string, permissions: set<string>)

  /** `New` */
  function ReadKeys(keys: set<string>): set<string> {
    set k | k in keys && NormalizePermissionKey(k) != "" :: NormalizePermissionKey(k)
  }

  function NewScope(userId: string, role: string, keys: set<string>): Scope {
    Scope(Trim(userId), Trim(role), ReadKeys(keys))
  }

  predicate Has(s: Scope, resource: string, action: string) {
    Trim(s.role) == SUPERADMIN || PermissionKey(resource, action) in s.permissions
  }

  /** What `NormalizeKey` produces: trimmed, and lower-casing changes nothing. */
  predicate AllLower(s: string) { forall k :: 0 <= k < |s| ==> LowerChar(s[k]) == s[k] }

  predicate Normal(s: string) { Trimmed(s) && AllLower(s) }

  lemma NormalizeKeyIsNormal(s: string)
    ensures Normal(NormalizeKey(s))
  {
    NormalizeKeyIdempotent(s);
  }

  lemma LowerLeaves(s: string)
    requires AllLower(s)
    ensures Lower(s) == s
  {
  }

  lemma {:induction false} TrimKeepsLower(s: string)
    requires AllLower(s)
    ensures NormalizeKey(s) == Trim(s)
  {
    TrimLeftIsSuffix(s);
    LowerLeaves(Trim(s));
  }

  /** No blank beside the first colon of a resource, and something before it, if it has a colon. */
  predicate PlainPart(r: string) {
    var i := ColonAt(r);
    i < |r| ==> i > 0 && !IsSpace(r[i - 1]) && (i + 1 < |r| ==> !IsSpace(r[i + 1]))
  }

  predicate Plain(resource: string) { PlainPart(NormalizeKey(resource)) }

  lemma {:induction false} ColonIsThere(a: string, b: string)
    requires ':' !in a
    ensures ColonAt(a + ":" + b) == |a|
  {
    if a != "" {
      assert (a + ":" + b)[1..] == a[1..] + ":" + b;
      ColonIsThere(a[1..], b);
    }
  }

  lemma ColonOfKey(r: string, a: string)
    ensures ColonAt(r + ":" + a) == ColonAt(r)
  {
    var i := ColonAt(r);
    ColonIsFirst(r);
    if i == |r| {
      assert r[..i] == r;
      ColonIsThere(r, a);
    } else {
      assert r + ":" + a == r[..i] + ":" + (r[i + 1..] + ":" + a);
      ColonIsThere(r[..i], r[i + 1..] + ":" + a);
    }
  }

  lemma TrimOnlyShortens(s: string)
    ensures if Trimmed(s) then Trim(s) == s else |Trim(s)| < |s|
  {
    TrimIsTrimmed(s);
    TrimLeftIsSuffix(s);
  }

  lemma LowerParts(s: string, i: nat)
    requires AllLower(s) && i < |s|
    ensures AllLower(s[..i]) && AllLower(s[i + 1..])
  {
  }

  lemma LowerKey(r: string, a: string)
    requires AllLower(r) && AllLower(a)
    ensures AllLower(r + ":" + a)
  {
  }

  lemma KeyIsTrimmed(r: string, a: string)
    requires Normal(r) && Normal(a) && r != "" && a != ""
    ensures Trim(r + ":" + a) == r + ":" + a
  {
    var k := r + ":" + a;
    assert k[0] == r[0] && k[|k| - 1] == a[|a| - 1];
    TrimKeepsTrimmed(k);
  }

  lemma PlainMeansTrimmedParts(r: string, a: string)
    requires Normal(r) && Normal(a) && r != "" && a != ""
    ensures var k, i := r + ":" + a, ColonAt(r);
            PlainPart(r) <==> k[..i] != "" && Trimmed(k[..i]) && Trimmed(k[i + 1..])
  {
    var k, i := r + ":" + a, ColonAt(r);
    assert k[..i] == r[..i];
    if i == |r| {
      assert k[i + 1..] == a && k[..i] == r;
    } else {
      RightOfColon(r, a, i);
    }
  }

  lemma RightOfColon(r: string, a: string, i: nat)
    requires i < |r| && a != "" && !IsSpace(a[|a| - 1])
    ensures Trimmed((r + ":" + a)[i + 1..]) <==> (i + 1 < |r| ==> !IsSpace(r[i + 1]))
  {
    var right := (r + ":" + a)[i + 1..];
    assert right[|right| - 1] == a[|a| - 1];
    assert right[0] == if i + 1 < |r| then r[i + 1] else ':';
  }

  lemma JoinsAgree(l: string, r: string, left: string, right: string)
    requires |l| <= |left| && |r| <= |right|
    requires (|l| == |left| ==> l == left) && (|r| == |right| ==> r == right)
    ensures l + ":" + r == left + ":" + right <==> |l| == |left| && |r| == |right|
  {
    assert |l + ":" + r| == |l| + 1 + |r| && |left + ":" + right| == |left| + 1 + |right|;
  }

  lemma TrimmedLength(s: string)
    ensures |Trim(s)| <= |s| && (Trimmed(s) <==> |Trim(s)| == |s|) && (|Trim(s)| == |s| ==> Trim(s) == s)
  {
    TrimOnlyShortens(s);
  }

  lemma RewrittenKey(left: string, right: string)
    requires AllLower(left) && AllLower(right) && right != ""
    ensures PermissionKey(left, right) == left + ":" + right <==> left != "" && Trimmed(left) && Trimmed(right)
  {
    assert PermissionKey(left, right) == KeyOf(Trim(left), Trim(right)) by {
      TrimKeepsLower(left);
      TrimKeepsLower(right);
    }
    TrimmedLength(left);
    TrimmedLength(right);
    JoinsAgree(Trim(left), Trim(right), left, right);
  }

  lemma CutAt(s: string, i: nat)
    requires i < |s| && s[i] == ':'
    ensures s == s[..i] + ":" + s[i + 1..]
  {
  }

  lemma KeySplits(k: string, r: string, a: string)
    requires k == r + ":" + a && Trim(k) == k
    ensures var i := ColonAt(r);
            i < |k| && NormalizePermissionKey(k) == PermissionKey(k[..i], k[i + 1..]) && k[i] == ':'
  {
    ColonOfKey(r, a);
    JoinIsLonger(r, a);
    ReadsAt(k, ColonAt(r));
  }

  lemma JoinIsLonger(r: string, a: string)
    ensures |r + ":" + a| > |r|
  {
  }

  lemma ReadsAt(k: string, i: nat)
    requires Trim(k) == k && ColonAt(k) == i < |k|
    ensures NormalizePermissionKey(k) == PermissionKey(k[..i], k[i + 1..]) && k[i] == ':'
  {
  }

  lemma ReadBack(r: string, a: string)
    requires Normal(r) && Normal(a) && r != "" && a != ""
    ensures NormalizePermissionKey(r + ":" + a) == r + ":" + a <==> PlainPart(r)
  {
    var k, i := r + ":" + a, ColonAt(r);
    KeyIsTrimmed(r, a);
    KeySplits(k, r, a);
    CutAt(k, i);
    assert AllLower(k[..i]) && AllLower(k[i + 1..]) by {
      LowerKey(r, a);
      LowerParts(k, i);
    }
    assert k[i + 1..] != "";
    RewrittenKey(k[..i], k[i + 1..]);
    PlainMeansTrimmedParts(r, a);
  }

  /** Reading back a written key gives the same key exactly when the resource is plain. */
  lemma KeySurvivesIffPlain(resource: string, action: string)
    requires PermissionKey(resource, action) != ""
    ensures NormalizePermissionKey(PermissionKey(resource, action)) == PermissionKey(resource, action)
            <==> Plain(resource)
  {
    NormalizeKeyIsNormal(resource);
    NormalizeKeyIsNormal(action);
    ReadBack(NormalizeKey(resource), NormalizeKey(action));
  }

  // ---------- Which permissions share a key ----------

  /** A colon with something on both sides and no blank beside it: where a resource could end. */
  predicate Cuts(key: string, i: nat) {
    0 < i < |key| - 1 && key[i] == ':' && !IsSpace(key[i - 1]) && !IsSpace(key[i + 1])
  }

  /** A written key is cut where its resource ends ... */
  lemma KeyIsCut(resource: string, action: string)
    requires PermissionKey(resource, action) != ""
    ensures var key, i := PermissionKey(resource, action), |NormalizeKey(resource)|;
            Normal(key) && Cuts(key, i) && key[..i] == NormalizeKey(resource) && key[i + 1..] == NormalizeKey(action)
  {
    var r, a := NormalizeKey(resource), NormalizeKey(action);
    NormalizeKeyIsNormal(resource);
    NormalizeKeyIsNormal(action);
    CutOfJoin(r, a);
  }

  lemma CutOfJoin(r: string, a: string)
    requires Normal(r) && Normal(a) && r != "" && a != ""
    ensures var key := r + ":" + a;
            Normal(key) && Cuts(key, |r|) && key[..|r|] == r && key[|r| + 1..] == a
  {
    var key := r + ":" + a;
    assert key[0] == r[0] && key[|key| - 1] == a[|a| - 1];
    assert key[|r| - 1] == r[|r| - 1] && key[|r| + 1] == a[0];
    LowerKey(r, a);
  }

  /** ... and the two sides of any cut write the key. */
  lemma CutIsKey(key: string, i: nat)
    requires Normal(key) && Cuts(key, i)
    ensures NormalizeKey(key[..i]) == key[..i] && NormalizeKey(key[i + 1..]) == key[i + 1..]
    ensures PermissionKey(key[..i], key[i + 1..]) == key
  {
    LowerParts(key, i);
    NormalStays(key[..i]);
    NormalStays(key[i + 1..]);
    CutAt(key, i);
  }

  predicate SamePermission(resource1: string, action1: string, resource2: string, action2: string) {
    NormalizeKey(resource1) == NormalizeKey(resource2) && NormalizeKey(action1) == NormalizeKey(action2)
  }

  /** A key belongs to another permission as well exactly when it has a cut besides the end of its resource. */
  lemma KeyIsSharedIff(resource: string, action: string)
    requires PermissionKey(resource, action) != ""
    ensures var key := PermissionKey(resource, action);
            (exists r, a :: PermissionKey(r, a) == key && !SamePermission(r, a, resource, action))
            <==> exists i :: Cuts(key, i) && i != |NormalizeKey(resource)|
  {
    var key := PermissionKey(resource, action);
    if r, a :| PermissionKey(r, a) == key && !SamePermission(r, a, resource, action) {
      SharerCuts(resource, action, r, a);
    }
    if i :| Cuts(key, i) && i != |NormalizeKey(resource)| {
      CutShares(resource, action, i);
    }
  }

  lemma SharerCuts(resource: string, action: string, r: string, a: string)
    requires PermissionKey(resource, action) == PermissionKey(r, a) != "" && !SamePermission(r, a, resource, action)
    ensures Cuts(PermissionKey(resource, action), |NormalizeKey(r)|) && |NormalizeKey(r)| != |NormalizeKey(resource)|
  {
    KeyIsCut(resource, action);
    KeyIsCut(r, a);
  }

  lemma CutShares(resource: string, action: string, i: nat)
    requires PermissionKey(resource, action) != ""
    requires Cuts(PermissionKey(resource, action), i) && i != |NormalizeKey(resource)|
    ensures var key := PermissionKey(resource, action);
            PermissionKey(key[..i], key[i + 1..]) == key && !SamePermission(key[..i], key[i + 1..], resource, action)
  {
    KeyIsCut(resource, action);
    CutIsKey(PermissionKey(resource, action), i);
  }

  /** So resources without a colon are told apart, whatever their actions. */
  lemma KeysAreInjective(resource1: string, action1: string, resource2: string, action2: string)
    requires ':' !in NormalizeKey(resource1) && ':' !in NormalizeKey(resource2)
    requires PermissionKey(resource1, action1) == PermissionKey(resource2, action2) != ""
    ensures SamePermission(resource1, action1, resource2, action2)
  {
    KeyIsCut(resource1, action1);
    KeyIsCut(resource2, action2);
  }

  /** And those with one are not: `x:y` with `z` and `x` with `y:z` share one key, also for an empty `y`. */
  lemma ColonsConfuse(x: string, y: string, z: string)
    requires Normal(x) && Normal(y) && Normal(z) && x != "" && z != ""
    ensures PermissionKey(x + ":" + y, z) == PermissionKey(x, y + ":" + z) != ""
  {
    TwoCuts(x, y, z);
    Sides(x, y, z);
    CutWrites(x + ":" + y + ":" + z, |x|, x, y + ":" + z);
    CutWrites(x + ":" + y + ":" + z, |x| + 1 + |y|, x + ":" + y, z);
  }

  lemma CutWrites(key: string, i: nat, resource: string, action: string)
    requires Normal(key) && Cuts(key, i) && key[..i] == resource && key[i + 1..] == action
    ensures PermissionKey(resource, action) == key
  {
    CutIsKey(key, i);
  }

  lemma Sides(x: string, y: string, z: string)
    ensures var key, i, j := x + ":" + y + ":" + z, |x|, |x| + 1 + |y|;
            && key[..i] == x && key[i + 1..] == y + ":" + z
            && key[..j] == x + ":" + y && key[j + 1..] == z
  {
  }

  lemma TwoCuts(x: string, y: string, z: string)
    requires Normal(x) && Normal(y) && Normal(z) && x != "" && z != ""
    ensures var key := x + ":" + y + ":" + z;
            Normal(key) && Cuts(key, |x|) && Cuts(key, |x| + 1 + |y|)
  {
    var key, j := x + ":" + y + ":" + z, |x| + 1 + |y|;
    assert key[0] == x[0] && key[|key| - 1] == z[|z| - 1];
    assert key[|x| - 1] == x[|x| - 1] && key[|x|] == ':' && key[j] == ':' && key[j + 1] == z[0];
    assert key[|x| + 1] == if y == "" then ':' else y[0];
    assert key[j - 1] == if y == "" then ':' else y[|y| - 1];
    LowerKey(x, y);
    LowerKey(x + ":" + y, z);
  }

  lemma NormalStays(s: string)
    requires Normal(s)
    ensures NormalizeKey(s) == s
  {
    TrimKeepsLower(s);
    TrimKeepsTrimmed(s);
  }

  lemma {:induction false} ColonIsAbsent(s: string)
    requires ':' !in s
    ensures ColonAt(s) == |s|
  {
    if s != "" { ColonIsAbsent(s[1..]); }
  }

  /** A key whose resource has no colon is written plainly and read back. */
  lemma PlainKey(r: string, a: string)
    requires Normal(r) && Normal(a) && r != "" && a != "" && ':' !in r
    ensures PermissionKey(r, a) == r + ":" + a && NormalizePermissionKey(r + ":" + a) == r + ":" + a
  {
    NormalStays(r);
    NormalStays(a);
    ColonIsAbsent(r);
    KeySurvivesIffPlain(r, a);
  }

  // ---------- Reading twice ----------

  lemma NoColonKept(s: string)
    requires ':' !in s
    ensures ':' !in NormalizeKey(s)
  {
    TrimLeftIsSuffix(s);
    var n := NormalizeKey(s);
    forall k | 0 <= k < |n| ensures n[k] != ':' { assert n[k] == LowerChar(Trim(s)[k]) && Trim(s)[k] in s; }
  }

  /** What has been read once is read as it is. */
  lemma ReadTwice(k: string)
    ensures NormalizePermissionKey(NormalizePermissionKey(k)) == NormalizePermissionKey(k)
  {
    var p := Trim(k);
    var i := ColonAt(p);
    if NormalizePermissionKey(k) != "" {
      ColonIsFirst(p);
      NoColonKept(p[..i]);
      ColonIsAbsent(NormalizeKey(p[..i]));
      KeySurvivesIffPlain(p[..i], p[i + 1..]);
    } else {
      BlankIsUnread();
    }
  }

  lemma BlankIsUnread()
    ensures NormalizePermissionKey("") == ""
  {
  }
}
