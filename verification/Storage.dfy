/** Object URLs of the two storage adapters and the object names read back from them. */
module Storage {
  import opened Strings

  // ---------- MinIO ----------

  function MinioURL(base: string, bucket: string, name: string): string { base + "/" + bucket + "/" + name }

  /** The position of the first part equal to the name; their number if there is none. */
  function FirstIndex(parts: seq<string>, name: string): (i: nat)
    ensures i <= |parts| && (forall k :: 0 <= k < i ==> parts[k] != name) && (i < |parts| ==> parts[i] == name)
  {
    if parts == [] || parts[0] == name then 0 else 1 + FirstIndex(parts[1..], name)
  }

  function MinioName(bucket: string, url: string): string {
    var parts := Split(url, '/');
    var i := FirstIndex(parts, bucket);
    if i >= |parts| - 1 then "" else Join(parts[i + 1..], '/')
  }

  method ExtractMinioName(bucket: string, url: string) returns (name: string)
    ensures name == MinioName(bucket, url)
  {
    var parts := Split(url, '/');
    if |parts| < 2 { return ""; }
    var bucketIndex := -1;
    for i := 0 to |parts|
      invariant bucketIndex == -1 && forall k :: 0 <= k < i ==> parts[k] != bucket
    {
      if parts[i] == bucket {
        bucketIndex := i;
        break;
      }
    }
    if bucketIndex == -1 || bucketIndex >= |parts| - 1 { return ""; }
    return Join(parts[bucketIndex + 1..], '/');
  }

  lemma MinioParts(base: string, bucket: string, name: string)
    ensures Split(MinioURL(base, bucket, name), '/') == Split(base, '/') + Split(bucket, '/') + Split(name, '/')
  {
    SplitAtSeparator(base + "/" + bucket, name, '/');
    SplitAtSeparator(base, bucket, '/');
  }

  /** Reading past the first part equal to the name `w` in `front + [w] + tail`. */
  lemma PastFirst(front: seq<string>, w: string, tail: seq<string>)
    requires tail != []
    ensures var parts := front + [w] + tail;
            var i := FirstIndex(parts, w);
            i < |parts| - 1 && (Join(parts[i + 1..], '/') == Join(tail, '/') <==> w !in front)
  {
    var parts := front + [w] + tail;
    var i := FirstIndex(parts, w);
    assert parts[|front|] == w;
    if w in front {
      var k :| 0 <= k < |front| && front[k] == w;
      assert parts[k] == w && i <= k;
      var between := front[i + 1..] + [w];
      assert parts[i + 1..] == between + tail;
      JoinAppend(between, tail, '/');
    } else {
      assert forall k :: 0 <= k < |front| ==> parts[k] == front[k];
      assert parts[i + 1..] == tail;
    }
  }

  /**
   A MinIO object name is read back from its URL exactly when the bucket name has no slash and
   no slash-separated part of the base URL is the bucket name.
   */
  lemma MinioRoundTripIff(base: string, bucket: string, name: string)
    requires name != ""
    ensures MinioName(bucket, MinioURL(base, bucket, name)) == name <==> '/' !in bucket && bucket !in Split(base, '/')
  {
    if '/' in bucket {
      NoPartHasSlash(bucket, MinioURL(base, bucket, name));
    } else {
      NameBehindBucket(base, bucket, name);
      PastFirst(Split(base, '/'), bucket, Split(name, '/'));
      JoinSplit(name, '/');
    }
  }

  lemma NoPartHasSlash(bucket: string, url: string)
    requires '/' in bucket
    ensures MinioName(bucket, url) == ""
  {
    var parts := Split(url, '/');
    assert forall k :: 0 <= k < |parts| ==> parts[k] != bucket;
  }

  lemma NameBehindBucket(base: string, bucket: string, name: string)
    requires '/' !in bucket
    ensures var parts := Split(base, '/') + [bucket] + Split(name, '/');
            var i := FirstIndex(parts, bucket);
            MinioName(bucket, MinioURL(base, bucket, name))
            == if i >= |parts| - 1 then "" else Join(parts[i + 1..], '/')
  {
    MinioParts(base, bucket, name);
    SplitWord(bucket, '/');
  }

  // ---------- R2 ----------

  /** `strings.TrimRight(s, "/")` */
  function StripSlashes(s: string): (r: string)
    ensures r <= s && (r != "" ==> r[|r| - 1] != '/')
    ensures forall k :: |r| <= k < |s| ==> s[k] == '/'
  {
    if s != "" && s[|s| - 1] == '/' then StripSlashes(s[..|s| - 1]) else s
  }

  function R2URL(base: string, name: string): string { StripSlashes(base) + "/" + name }

  function R2Name(base: string, url: string): string {
    var name := TrimPrefix(TrimPrefix(url, base), "/");
    var parts := Split(url, '/');
    if (name == "" || name == url) && |parts| >= 4 then Join(parts[3..], '/') else name
  }

  method ExtractR2Name(base: string, url: string) returns (objectName: string)
    ensures objectName == R2Name(base, url)
  {
    objectName := TrimPrefix(url, base);
    objectName := TrimPrefix(objectName, "/");
    if objectName == "" || objectName == url {
      var parts := Split(url, '/');
      if |parts| >= 4 { objectName := Join(parts[3..], '/'); }
    }
  }

  /**
   The base URL ends in at most one slash, or it is only slashes, or it has the shape of
   `https://host` before them.
   */
  predicate R2Readable(base: string) {
    var b := StripSlashes(base);
    |base| - |b| <= 1 || b == "" || (b[0] != '/' && |Split(b, '/')| == 3)
  }

  lemma R2OneSlash(base: string, name: string)
    requires name != "" && name[0] != '/' && |base| - |StripSlashes(base)| <= 1
    ensures R2Name(base, R2URL(base, name)) == name
  {
    var b := StripSlashes(base);
    if |base| == |b| {
      assert base == b;
      R2BehindBase(base, name);
    } else {
      assert base == b + "/";
      R2BehindSlash(b, name);
    }
  }

  lemma R2BehindBase(base: string, name: string)
    requires name != ""
    ensures R2Name(base, base + "/" + name) == name
  {
    assert base + "/" + name == base + ("/" + name);
    PrefixDropped(base, "/" + name);
    PrefixDropped("/", name);
    R2Trimmed(base, base + "/" + name, name);
  }

  lemma R2BehindSlash(b: string, name: string)
    requires name != "" && name[0] != '/'
    ensures R2Name(b + "/", b + "/" + name) == name
  {
    PrefixDropped(b + "/", name);
    assert TrimPrefix(name, "/") == name;
    R2Trimmed(b + "/", b + "/" + name, name);
  }

  lemma R2Trimmed(base: string, url: string, name: string)
    requires TrimPrefix(TrimPrefix(url, base), "/") == name && name != "" && |url| > |name|
    ensures R2Name(base, url) == name
  {
  }

  lemma PrefixDropped(p: string, s: string)
    ensures TrimPrefix(p + s, p) == s
  {
  }

  lemma R2Fallback(b: string, name: string)
    requires name != ""
    ensures var parts := Split(b + "/" + name, '/');
            (|parts| >= 4 && Join(parts[3..], '/') == name) <==> |Split(b, '/')| == 3
  {
    var front, tail := Split(b, '/'), Split(name, '/');
    var parts := Split(b + "/" + name, '/');
    SplitAtSeparator(b, name, '/');
    JoinSplit(name, '/');
    if |parts| >= 4 {
      if |front| == 3 {
        assert parts[3..] == tail;
      } else if |front| > 3 {
        assert parts[3..] == front[3..] + tail;
        JoinAppend(front[3..], tail, '/');
      } else {
        var cut := 3 - |front|;
        assert parts[3..] == tail[cut..] && tail == tail[..cut] + tail[cut..];
        JoinAppend(tail[..cut], tail[cut..], '/');
      }
    }
  }

  /**
   An R2 object name, not empty and without a leading slash, is read back from its URL exactly under
   those base URLs.
   */
  lemma R2RoundTripIff(base: string, name: string)
    requires name != "" && name[0] != '/'
    ensures R2Name(base, R2URL(base, name)) == name <==> R2Readable(base)
  {
    var b := StripSlashes(base);
    if |base| - |b| <= 1 {
      R2OneSlash(base, name);
    } else {
      R2TooManySlashes(base, name);
      if b != "" { R2Fallback(b, name); }
    }
  }

  /** Then the base is no prefix of the URL, and what is dropped from the front is a slash at most. */
  lemma R2TooManySlashes(base: string, name: string)
    requires name != "" && name[0] != '/' && |base| - |StripSlashes(base)| > 1
    ensures var b, parts := StripSlashes(base), Split(StripSlashes(base) + "/" + name, '/');
            R2Name(base, R2URL(base, name)) == name <==>
              b == "" || (b[0] != '/' && |parts| >= 4 && Join(parts[3..], '/') == name)
  {
    var b, url := StripSlashes(base), R2URL(base, name);
    assert base[|b| + 1] == '/' && url[|b| + 1] == name[0];
    assert TrimPrefix(url, base) == url;
    if b == "" {
      assert url == "/" + name;
      PrefixDropped("/", name);
    } else if b[0] == '/' {
      assert url[0] == '/' && |TrimPrefix(url, "/")| == |url| - 1;
    } else {
      assert url[0] != '/' && TrimPrefix(url, "/") == url;
    }
  }
}
