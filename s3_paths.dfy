/**
  S3 path handling: `normalize_path`, `parse_s3_path` and `make_s3_path` of
  `src/s3_utils.py`.

  `normalize_path` rewrites its argument with `str.replace("//", "/")` until
  no `//` is left and then drops one trailing `/`.  It is modelled twice: as
  the method `NormalizePath`, which runs that loop, and as the function
  `NormalizedPath`, which collapses every run of slashes in one pass.  The
  method is proved to compute the function; the pure operations
  (`ParseS3Path`, `MakeS3Path`) use the function.
 */
module S3Paths {
  import opened PyStrings

  const S3_SCHEME := "s3://"
  const SCHEME_ERROR := "S3 path must start with 's3://'"

  /** A bucket and a key prefix, as returned by `parse_s3_path`. */
  datatype S3Location = S3Location(bucket: string, prefix: string)

  /** A value, or the message of the `ValueError` raised instead. */
  datatype Result<T> = Success(value: T) | Failure(error: string)

  /** No `/` is directly followed by another `/`. */
  ghost predicate NoDoubleSlash(s: string) {
    forall i :: 0 <= i < |s| - 1 ==> !(s[i] == '/' && s[i + 1] == '/')
  }

  /** Python's `"//" in s`. */
  function HasDoubleSlash(s: string): (b: bool)
    ensures b <==> !NoDoubleSlash(s)
  {
    if |s| < 2 then false
    else if s[0] == '/' && s[1] == '/' then true
    else
      HasDoubleSlash(s[1..])
  }

  /** Python's `s.replace("//", "/")`: occurrences are replaced left to right, without overlap. */
  function ReplaceDoubleSlash(s: string): (r: string)
    ensures |r| <= |s|
    ensures HasDoubleSlash(s) ==> |r| < |s|
    ensures s != [] ==> r != [] && r[0] == s[0]
    ensures CollapseSlashes(r) == CollapseSlashes(s)
  {
    if s == [] then []
    else if |s| >= 2 && s[0] == '/' && s[1] == '/' then
      var t := ReplaceDoubleSlash(s[2..]);
      assert s[1..][1..] == s[2..];
      "/" + t
    else
      var t := ReplaceDoubleSlash(s[1..]);
      [s[0]] + t
  }

  /** Every run of consecutive `/` in `s` replaced by a single `/`. */
  function CollapseSlashes(s: string): (r: string)
    ensures |r| <= |s|
    ensures s != [] ==> r != [] && r[0] == s[0]
    ensures NoDoubleSlash(r)
  {
    if s == [] then []
    else if |s| >= 2 && s[0] == '/' && s[1] == '/' then CollapseSlashes(s[1..])
    else [s[0]] + CollapseSlashes(s[1..])
  }

  /** What `normalize_path` returns: slashes collapsed, then one trailing `/` dropped. */
  function NormalizedPath(path: string): (r: string)
    ensures |r| <= |path|
    ensures NoDoubleSlash(r)
    ensures !EndsWith(r, "/")
  {
    var c := CollapseSlashes(path);
    if EndsWith(c, "/") then
      assert c[|c| - 1] == '/';
      c[..|c| - 1]
    else c
  }

  /** `normalize_path`, loop for loop. */
  method NormalizePath(path: string) returns (r: string)
    ensures r == NormalizedPath(path)
  {
    r := path;
    while HasDoubleSlash(r)
      invariant CollapseSlashes(r) == CollapseSlashes(path)
      decreases |r|
    {
      r := ReplaceDoubleSlash(r);
    }
    CollapseFixesNormalized(r);
    if EndsWith(r, "/") {
      r := r[..|r| - 1];
    }
  }

  /** A text without `//` is left alone by collapsing. */
  lemma {:induction false} CollapseFixesNormalized(s: string)
    requires NoDoubleSlash(s)
    ensures CollapseSlashes(s) == s
  {
    if s != [] {
      CollapseFixesNormalized(s[1..]);
    }
  }

  /** `normalize_path` is idempotent. */
  lemma NormalizedPathIdempotent(path: string)
    ensures NormalizedPath(NormalizedPath(path)) == NormalizedPath(path)
  {
    CollapseFixesNormalized(NormalizedPath(path));
  }

  /** The text with every `/` removed. */
  function WithoutSlashes(s: string): (r: string)
    ensures '/' !in r
    ensures |r| <= |s|
  {
    if s == [] then []
    else if s[0] == '/' then WithoutSlashes(s[1..])
    else [s[0]] + WithoutSlashes(s[1..])
  }

  /** Collapsing only removes slashes: every other character stays, in order. */
  lemma {:induction false} CollapseKeepsOtherCharacters(s: string)
    ensures WithoutSlashes(CollapseSlashes(s)) == WithoutSlashes(s)
  {
    if s != [] {
      CollapseKeepsOtherCharacters(s[1..]);
      if |s| >= 2 && s[0] == '/' && s[1] == '/' {
      } else {
        assert ([s[0]] + CollapseSlashes(s[1..]))[1..] == CollapseSlashes(s[1..]);
      }
    }
  }

  /** Normalising only removes slashes: every other character stays, in order. */
  lemma NormalizedPathKeepsOtherCharacters(path: string)
    ensures WithoutSlashes(NormalizedPath(path)) == WithoutSlashes(path)
  {
    var c := CollapseSlashes(path);
    CollapseKeepsOtherCharacters(path);
    if EndsWith(c, "/") {
      DropTrailingSlash(c);
    }
  }

  lemma {:induction false} DropTrailingSlash(s: string)
    requires s != [] && s[|s| - 1] == '/'
    ensures WithoutSlashes(s[..|s| - 1]) == WithoutSlashes(s)
  {
    if |s| > 1 {
      assert s[1..][..|s| - 2] == s[..|s| - 1][1..];
      DropTrailingSlash(s[1..]);
    }
  }

  /** `parse_s3_path`: split `s3://bucket/prefix` at the first `/` after the scheme. */
  function ParseS3Path(s3Path: string): (r: Result<S3Location>)
    ensures r.Failure? <==> !StartsWith(s3Path, S3_SCHEME)
    ensures r.Failure? ==> r.error == SCHEME_ERROR
    ensures r.Success? ==>
      var rest := s3Path[|S3_SCHEME|..];
      var i := IndexOf(rest, '/');
      && '/' !in r.value.bucket
      && r.value.bucket == rest[..i]
      && r.value.prefix == (if i < |rest| then NormalizedPath(rest[i + 1..]) else "")
  {
    if !StartsWith(s3Path, S3_SCHEME) then Failure(SCHEME_ERROR)
    else
      var pathWithoutProtocol := s3Path[|S3_SCHEME|..];
      var parts := Split(pathWithoutProtocol, '/');
      SplitAtFirst(pathWithoutProtocol, '/');
      Success(S3Location(parts[0], NormalizedPath(Join(parts[1..], '/'))))
  }

  /** `make_s3_path`: `s3://bucket/key` with the key normalised. */
  function MakeS3Path(bucket: string, key: string): (r: string)
    ensures StartsWith(r, S3_SCHEME)
    ensures EndsWith(r, "/" + NormalizedPath(key))
  {
    S3_SCHEME + bucket + "/" + NormalizedPath(key)
  }

  /**
    For a bucket name without `/`, parsing a built path gives back the bucket
    and the normalised key.
   */
  lemma ParseMakeRoundTrip(bucket: string, key: string)
    requires '/' !in bucket
    ensures ParseS3Path(MakeS3Path(bucket, key)) == Success(S3Location(bucket, NormalizedPath(key)))
  {
    ParseChildPath(bucket, NormalizedPath(key));
    NormalizedPathIdempotent(key);
  }

  /** Parsing `s3://bucket/tail` splits at the `/` after the bucket. */
  lemma ParseChildPath(bucket: string, tail: string)
    requires '/' !in bucket
    ensures ParseS3Path(S3_SCHEME + bucket + "/" + tail) == Success(S3Location(bucket, NormalizedPath(tail)))
  {
    var s := S3_SCHEME + bucket + "/" + tail;
    var rest := bucket + "/" + tail;
    assert s[..|S3_SCHEME|] == S3_SCHEME && s[|S3_SCHEME|..] == rest;
    IndexOfAfterPrefix(bucket, tail);
    assert rest[..|bucket|] == bucket;
    assert rest[|bucket| + 1..] == tail;
  }

  lemma {:induction false} IndexOfAfterPrefix(bucket: string, tail: string)
    requires '/' !in bucket
    ensures IndexOf(bucket + "/" + tail, '/') == |bucket|
  {
    if bucket != [] {
      assert (bucket + "/" + tail)[1..] == bucket[1..] + "/" + tail;
      IndexOfAfterPrefix(bucket[1..], tail);
    }
  }
}
