/**
 * String operations shared by the server model (Python semantics) and the
 * browser client model (JavaScript semantics): prefix and substring tests,
 * the first-occurrence search behind Python's `str.split(sep)`, the two
 * languages' whitespace trimming, and JavaScript's UTF-16 `length`.
 */
module TextOps {

  datatype Option<+T> = None | Some(value: T)

  datatype Result<+T, +E> = Ok(value: T) | Err(error: E)

  /** `p` is a prefix of `s` (Python `s.startswith(p)`, JavaScript `s.startsWith(p)`). */
  predicate IsPrefix(p: string, s: string) {
    |p| <= |s| && s[..|p|] == p
  }

  /** A text starts with any of its prefixes. */
  lemma PrefixOfConcat(p: string, s: string)
    ensures IsPrefix(p, p + s)
  {
    assert (p + s)[..|p|] == p;
  }

  /** `p` occurs in `s` at index `i`. */
  predicate OccursAt(s: string, p: string, i: int) {
    0 <= i && i + |p| <= |s| && s[i..i + |p|] == p
  }

  /** Python `p in s`. */
  predicate Contains(s: string, p: string) {
    exists i :: 0 <= i <= |s| && OccursAt(s, p, i)
  }

  /** The first index at or after `from` where `p` occurs in `s`, if any. */
  function FindFrom(s: string, p: string, from: nat): (r: Option<nat>)
    requires from <= |s|
    ensures r.Some? ==> from <= r.value && OccursAt(s, p, r.value)
    ensures r.Some? ==> forall j :: from <= j < r.value ==> !OccursAt(s, p, j)
    ensures r.None? ==> forall j :: from <= j ==> !OccursAt(s, p, j)
    decreases |s| - from
  {
    if OccursAt(s, p, from) then Some(from)
    else if from == |s| then None
    else FindFrom(s, p, from + 1)
  }

  /** The first index where `p` occurs in `s`; present exactly when `p in s`. */
  function Find(s: string, p: string): (r: Option<nat>)
    ensures r.Some? <==> Contains(s, p)
    ensures r.Some? ==> OccursAt(s, p, r.value) && forall j :: 0 <= j < r.value ==> !OccursAt(s, p, j)
  {
    FindFrom(s, p, 0)
  }

  /**
   * Python `s.split(sep)[0]` for a non-empty separator: the text before the
   * first occurrence of `sep`, or all of `s` when there is none.
   */
  function Before(s: string, sep: string): string {
    match Find(s, sep)
    case Some(k) => s[..k]
    case None => s
  }

  /**
   * Python `s.split(sep)[1]` for a string that contains `sep`: the text
   * between the first and the second occurrence (or the end of `s`).
   */
  function SecondPiece(s: string, sep: string): string
    requires Contains(s, sep)
  {
    var k := Find(s, sep).value;
    Before(s[k + |sep|..], sep)
  }

  /** `Before` is a prefix of its input in which the separator does not occur. */
  lemma BeforeIsPrefixFree(s: string, sep: string)
    requires |sep| > 0
    ensures IsPrefix(Before(s, sep), s)
    ensures !Contains(Before(s, sep), sep)
  {
    match Find(s, sep)
    case None =>
    case Some(k) =>
      var b := s[..k];
      forall i | 0 <= i <= |b| ensures !OccursAt(b, sep, i) {
        if OccursAt(b, sep, i) {
          assert b[i..i + |sep|] == s[i..i + |sep|];
          assert OccursAt(s, sep, i);
        }
      }
  }

  /** Python `str.split(sep)[0]` applied twice is applied once. */
  lemma BeforeIdempotent(s: string, sep: string)
    requires |sep| > 0
    ensures Before(Before(s, sep), sep) == Before(s, sep)
  {
    BeforeIsPrefixFree(s, sep);
  }

  /** No occurrence of `p` starts before an occurrence of `q` and runs into it. */
  predicate NoStraddle(s: string, p: string, q: string) {
    forall j, k :: 0 <= j < k <= |s| && OccursAt(s, p, j) && OccursAt(s, q, k) ==> j + |p| <= k
  }

  /**
   * Cutting at a longer separator `q` that begins with `p`, then at `p`, is
   * the same as cutting at `p` alone, provided no `p` runs into a `q`: every
   * occurrence of `q` starts with an occurrence of `p`, so the first `p`
   * comes no later than the first `q`.
   */
  lemma {:induction false} BeforeLongerThenShorter(s: string, p: string, q: string)
    requires |p| > 0 && IsPrefix(p, q) && NoStraddle(s, p, q)
    ensures Before(Before(s, q), p) == Before(s, p)
  {
    match Find(s, q)
    case None =>
    case Some(kq) =>
      var bq := s[..kq];
      assert s[kq..kq + |p|] == q[..|p|];
      assert OccursAt(s, p, kq);
      var kp := Find(s, p).value;
      assert kp <= kq;
      if kp < kq {
        assert kp + |p| <= kq;
        OccursInPrefix(s, p, kq, kp);
        forall j | 0 <= j < kp ensures !OccursAt(bq, p, j) {
          OccursFromPrefix(s, p, kq, j);
        }
        FindFirst(bq, p, kp);
      } else {
        forall j | 0 <= j <= |bq| ensures !OccursAt(bq, p, j) {
          OccursFromPrefix(s, p, kq, j);
        }
        assert !Contains(bq, p);
      }
  }

  /** An occurrence with none before it is the one `Find` returns. */
  lemma FindFirst(s: string, p: string, k: nat)
    requires OccursAt(s, p, k) && forall j :: 0 <= j < k ==> !OccursAt(s, p, j)
    ensures Find(s, p) == Some(k)
  {
    assert Contains(s, p);
    var r := Find(s, p).value;
    assert !(r < k) && !(k < r);
  }

  /** An occurrence that ends within the first `k` characters is an occurrence in `s[..k]`. */
  lemma OccursInPrefix(s: string, p: string, k: nat, j: nat)
    requires k <= |s| && OccursAt(s, p, j) && j + |p| <= k
    ensures OccursAt(s[..k], p, j)
  {
    assert s[..k][j..j + |p|] == s[j..j + |p|];
  }

  /** An occurrence in `s[..k]` is an occurrence in `s`. */
  lemma OccursFromPrefix(s: string, p: string, k: nat, j: nat)
    requires k <= |s|
    ensures OccursAt(s[..k], p, j) ==> OccursAt(s, p, j)
  {
    if OccursAt(s[..k], p, j) {
      assert s[..k][j..j + |p|] == s[j..j + |p|];
    }
  }

  // ---------------------------------------------------------------------
  // Whitespace and trimming

  /** Which language's notion of whitespace a trim uses. */
  datatype Space = PythonSpace | JsSpace

  /**
   * Python `str.isspace()` on one character, and the characters JavaScript's
   * `String.prototype.trim` removes (WhiteSpace and LineTerminator).
   */
  predicate IsSpace(kind: Space, c: char) {
    match kind
    case PythonSpace =>
      ('\t' <= c <= '\r') || ('\U{1C}' <= c <= '\U{1F}') || c == ' ' ||
      c == '\U{85}' || c == '\U{A0}' || c == '\U{1680}' || ('\U{2000}' <= c <= '\U{200A}') ||
      c == '\U{2028}' || c == '\U{2029}' || c == '\U{202F}' || c == '\U{205F}' || c == '\U{3000}'
    case JsSpace =>
      ('\t' <= c <= '\r') || c == ' ' || c == '\U{A0}' || c == '\U{1680}' ||
      ('\U{2000}' <= c <= '\U{200A}') || c == '\U{2028}' || c == '\U{2029}' || c == '\U{202F}' ||
      c == '\U{205F}' || c == '\U{3000}' || c == '\U{FEFF}'
  }

  predicate AllSpace(kind: Space, s: string) {
    forall i :: 0 <= i < |s| ==> IsSpace(kind, s[i])
  }

  /** Whitespace followed by whitespace is whitespace. */
  lemma AllSpaceAppend(kind: Space, a: string, b: string)
    requires AllSpace(kind, a) && AllSpace(kind, b)
    ensures AllSpace(kind, a + b)
  {
    forall k | 0 <= k < |a + b| ensures IsSpace(kind, (a + b)[k]) {
      if k < |a| { assert (a + b)[k] == a[k]; } else { assert (a + b)[k] == b[k - |a|]; }
    }
  }

  /** One more leading space in front of a suffix whose lead is whitespace. */
  lemma SpaceBeforeSuffix(kind: Space, s: string, r: string)
    requires s != [] && IsSpace(kind, s[0])
    requires |r| <= |s| - 1 && r == s[1..][|s| - 1 - |r|..] && AllSpace(kind, s[1..][..|s| - 1 - |r|])
    ensures r == s[|s| - |r|..] && AllSpace(kind, s[..|s| - |r|])
  {
    assert s[..|s| - |r|] == [s[0]] + s[1..][..|s| - 1 - |r|];
    AllSpaceAppend(kind, [s[0]], s[1..][..|s| - 1 - |r|]);
  }

  /** One more trailing space after a prefix whose tail is whitespace. */
  lemma SpaceAfterPrefix(kind: Space, s: string, r: string)
    requires s != [] && IsSpace(kind, s[|s| - 1])
    requires |r| <= |s| - 1 && r == s[..|s| - 1][..|r|] && AllSpace(kind, s[..|s| - 1][|r|..])
    ensures r == s[..|r|] && AllSpace(kind, s[|r|..])
  {
    assert s[|r|..] == s[..|s| - 1][|r|..] + [s[|s| - 1]];
    AllSpaceAppend(kind, s[..|s| - 1][|r|..], [s[|s| - 1]]);
  }

  /** Remove leading whitespace. */
  function TrimStart(kind: Space, s: string): (r: string)
    ensures |r| <= |s| && r == s[|s| - |r|..]
    ensures AllSpace(kind, s[..|s| - |r|])
    ensures r != [] ==> !IsSpace(kind, r[0])
  {
    if s != [] && IsSpace(kind, s[0]) then
      var r := TrimStart(kind, s[1..]);
      SpaceBeforeSuffix(kind, s, r);
      r
    else
      assert s[..0] == [];
      s
  }

  /** Remove trailing whitespace. */
  function TrimEnd(kind: Space, s: string): (r: string)
    ensures |r| <= |s| && r == s[..|r|]
    ensures AllSpace(kind, s[|r|..])
    ensures r != [] ==> !IsSpace(kind, r[|r| - 1])
  {
    if s != [] && IsSpace(kind, s[|s| - 1]) then
      var r := TrimEnd(kind, s[..|s| - 1]);
      SpaceAfterPrefix(kind, s, r);
      r
    else
      assert s[|s|..] == [];
      s
  }

  /** Trimming the end of the trimmed start leaves a slice of `s` with whitespace on both sides. */
  lemma TrimBounds(kind: Space, s: string, t: string, r: string)
    requires |t| <= |s| && t == s[|s| - |t|..] && AllSpace(kind, s[..|s| - |t|])
    requires t != [] ==> !IsSpace(kind, t[0])
    requires |r| <= |t| && r == t[..|r|] && AllSpace(kind, t[|r|..])
    requires r != [] ==> !IsSpace(kind, r[|r| - 1])
    ensures var i := |s| - |t|;
            && r == s[i..i + |r|] && AllSpace(kind, s[..i]) && AllSpace(kind, s[i + |r|..])
    ensures r != [] ==> !IsSpace(kind, r[0])
  {
    var i := |s| - |t|;
    assert s[i + |r|..] == t[|r|..];
    if r != [] {
      assert r[0] == t[0];
    }
  }

  /**
   * Python `s.strip()` with `PythonSpace`, JavaScript `s.trim()` with
   * `JsSpace`: the part of `s` left when all leading and trailing
   * whitespace is removed.
   */
  function Trim(kind: Space, s: string): (r: string)
    ensures exists i, j :: 0 <= i <= j <= |s| && r == s[i..j] &&
              AllSpace(kind, s[..i]) && AllSpace(kind, s[j..])
    ensures r != [] ==> !IsSpace(kind, r[0]) && !IsSpace(kind, r[|r| - 1])
  {
    var t := TrimStart(kind, s);
    var r := TrimEnd(kind, t);
    TrimBounds(kind, s, t, r);
    r
  }

  /** Trimming a string that has no whitespace at either end changes nothing. */
  lemma TrimKeepsTrimmed(kind: Space, s: string)
    requires s != [] ==> !IsSpace(kind, s[0]) && !IsSpace(kind, s[|s| - 1])
    ensures Trim(kind, s) == s
  {
  }

  /** Trimming is idempotent. */
  lemma TrimIdempotent(kind: Space, s: string)
    ensures Trim(kind, Trim(kind, s)) == Trim(kind, s)
  {
    TrimKeepsTrimmed(kind, Trim(kind, s));
  }

  // ---------------------------------------------------------------------
  // JavaScript string length

  /**
   * JavaScript `s.length`: the number of UTF-16 code units, so a character
   * outside the Basic Multilingual Plane counts twice.
   */
  function Utf16Length(s: string): (n: nat)
    ensures |s| <= n <= 2 * |s|
  {
    if s == [] then 0
    else Utf16Length(s[..|s| - 1]) + (if s[|s| - 1] as int > 0xFFFF then 2 else 1)
  }

  /** UTF-16 length agrees with the number of characters when all lie in the BMP. */
  lemma {:induction false} Utf16LengthOfBmp(s: string)
    requires forall i :: 0 <= i < |s| ==> s[i] as int <= 0xFFFF
    ensures Utf16Length(s) == |s|
  {
    if s != [] {
      Utf16LengthOfBmp(s[..|s| - 1]);
    }
  }

  /** Characters outside the Basic Multilingual Plane count twice. */
  lemma {:induction false} Utf16LengthOfAstral(s: string)
    requires forall i :: 0 <= i < |s| ==> s[i] as int > 0xFFFF
    ensures Utf16Length(s) == 2 * |s|
  {
    if s != [] {
      Utf16LengthOfAstral(s[..|s| - 1]);
    }
  }
}
