/** How an uploaded attachment is named on disk (routes/notices.js:8-18): the
    original file name is sanitised character by character and prefixed with
    the upload time in milliseconds, and the record stores the public path
    "/uploads/" + that name. Only the naming is modelled; the disk write is not. */
module Uploads {

  /** Characters the sanitiser keeps: [A-Za-z0-9._-]. */
  predicate IsSafe(c: char)
  {
    ('a' <= c <= 'z') || ('A' <= c <= 'Z') || ('0' <= c <= '9') || c == '.' || c == '_' || c == '-'
  }

  predicate AllSafe(s: string)
  {
    forall i :: 0 <= i < |s| ==> IsSafe(s[i])
  }

  /** Replace every character outside [A-Za-z0-9._-] by '_'. */
  function Sanitize(s: string): (r: string)
    ensures |r| == |s|
    ensures AllSafe(r)
    ensures forall i :: 0 <= i < |s| && IsSafe(s[i]) ==> r[i] == s[i]
    ensures forall i :: 0 <= i < |s| && !IsSafe(s[i]) ==> r[i] == '_'
  {
    if s == [] then []
    else [if IsSafe(s[0]) then s[0] else '_'] + Sanitize(s[1..])
  }

  /** A name made only of allowed characters comes back unchanged. */
  lemma {:induction false} SanitizeKeepsSafe(s: string)
    requires AllSafe(s)
    ensures Sanitize(s) == s
  {
    if s != [] {
      SanitizeKeepsSafe(s[1..]);
    }
  }

  lemma SanitizeIdempotent(s: string)
    ensures Sanitize(Sanitize(s)) == Sanitize(s)
  {
    SanitizeKeepsSafe(Sanitize(s));
  }

  predicate IsDigit(c: char)
  {
    '0' <= c <= '9'
  }

  predicate AllDigits(s: string)
  {
    forall i :: 0 <= i < |s| ==> IsDigit(s[i])
  }

  function DigitChar(d: nat): (c: char)
    requires d < 10
    ensures IsDigit(c) && (c as int) - ('0' as int) == d
  {
    ('0' as int + d) as char
  }

  /** Decimal rendering of a non-negative integer, as a template literal
      renders Date.now(). */
  function Decimal(n: nat): (r: string)
    ensures |r| >= 1 && AllDigits(r)
  {
    if n < 10 then [DigitChar(n)] else Decimal(n / 10) + [DigitChar(n % 10)]
  }

  /** The value of a string of decimal digits. */
  function DigitsValue(s: string): nat
    requires AllDigits(s)
  {
    if s == [] then 0
    else 10 * DigitsValue(s[..|s| - 1]) + ((s[|s| - 1] as int) - ('0' as int))
  }

  lemma {:induction false} DecimalRoundTrip(n: nat)
    ensures DigitsValue(Decimal(n)) == n
  {
    if n >= 10 {
      var r := Decimal(n);
      assert r[..|r| - 1] == Decimal(n / 10);
      DecimalRoundTrip(n / 10);
    }
  }

  /** An uploaded file as the route sees it: its original name and the
      millisecond clock reading taken when the storage engine named it. */
  datatype Upload = Upload(originalName: string, receivedAt: nat)

  /** The on-disk name: timestamp, '-', sanitised original name. */
  function StoredName(u: Upload): (r: string)
    ensures AllSafe(r)
    ensures |r| == |Decimal(u.receivedAt)| + 1 + |u.originalName|
    ensures r[..|Decimal(u.receivedAt)|] == Decimal(u.receivedAt)
    ensures r[|Decimal(u.receivedAt)|] == '-'
    ensures r[|Decimal(u.receivedAt)| + 1..] == Sanitize(u.originalName)
  {
    Decimal(u.receivedAt) + "-" + Sanitize(u.originalName)
  }

  /** Two uploads get the same stored name exactly when they arrive in the
      same millisecond with the same sanitised name. */
  lemma StoredNameCollision(u: Upload, v: Upload)
    ensures StoredName(u) == StoredName(v) <==>
            u.receivedAt == v.receivedAt && Sanitize(u.originalName) == Sanitize(v.originalName)
  {
    if StoredName(u) == StoredName(v) {
      var a, b := Decimal(u.receivedAt), Decimal(v.receivedAt);
      var s := StoredName(u);
      assert |a| == |b| by {
        FirstDash(a, Sanitize(u.originalName), s);
        FirstDash(b, Sanitize(v.originalName), s);
      }
      assert a == s[..|a|] == b;
      DecimalRoundTrip(u.receivedAt);
      DecimalRoundTrip(v.receivedAt);
    }
  }

  /** In digits + "-" + rest, the first '-' stands right after the digits. */
  lemma FirstDash(digits: string, rest: string, s: string)
    requires AllDigits(digits) && s == digits + "-" + rest
    ensures s[|digits|] == '-' && forall k :: 0 <= k < |digits| ==> s[k] != '-'
  {
  }

  const UploadPrefix: string := "/uploads/"

  /** The public path under which the stored file is served. */
  function PublicPath(u: Upload): (p: string)
    ensures |p| > |UploadPrefix| && p[..|UploadPrefix|] == UploadPrefix
    ensures p[|UploadPrefix|..] == StoredName(u)
  {
    UploadPrefix + StoredName(u)
  }

  /** A non-empty path under /uploads/ made of allowed characters. */
  predicate IsUploadPath(p: string)
  {
    |p| > |UploadPrefix| && p[..|UploadPrefix|] == UploadPrefix &&
    forall i :: |UploadPrefix| <= i < |p| ==> IsSafe(p[i])
  }

  lemma PublicPathIsUploadPath(u: Upload)
    ensures IsUploadPath(PublicPath(u))
  {
    SafeAfterPrefix(UploadPrefix, StoredName(u));
  }

  /** Appending allowed characters after a prefix leaves only allowed
      characters past the prefix. */
  lemma SafeAfterPrefix(prefix: string, name: string)
    requires AllSafe(name)
    ensures forall i :: |prefix| <= i < |prefix + name| ==> IsSafe((prefix + name)[i])
  {
    forall i | |prefix| <= i < |prefix + name|
      ensures IsSafe((prefix + name)[i])
    {
      assert (prefix + name)[i] == name[i - |prefix|];
    }
  }
}
