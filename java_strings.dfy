/** The java.lang.String operations the indexer relies on, with Java's exact
    notion of which characters each one strips or tests. */
module JavaStrings {

  /** String.trim() removes every leading and trailing character whose code
      point is at most U+0020 (all ASCII control characters and the space). */
  predicate IsTrimmable(c: char) {
    c <= ' '
  }

  /** Character.isWhitespace: the separators of Unicode categories Zs, Zl and Zp
      other than the no-break spaces, plus the ASCII controls TAB to CR and the
      four information separators U+001C..U+001F. String.isBlank and Spring's
      StringUtils.hasText are defined over this predicate, not over trim's. */
  predicate IsWhitespace(c: char) {
    || ('\t' <= c <= '\r')
    || ('\U{001C}' <= c <= ' ')
    || c == '\U{1680}'
    || ('\U{2000}' <= c <= '\U{2006}')
    || ('\U{2008}' <= c <= '\U{200A}')
    || c == '\U{2028}' || c == '\U{2029}' || c == '\U{205F}' || c == '\U{3000}'
  }

  /** String.isBlank(): empty or only whitespace. */
  predicate IsBlank(s: string) {
    forall i :: 0 <= i < |s| ==> IsWhitespace(s[i])
  }

  /** StringUtils.hasText(s) for a non-null s. */
  predicate HasText(s: string) {
    exists i :: 0 <= i < |s| && !IsWhitespace(s[i])
  }

  function TrimStart(s: string): (r: string)
    ensures |r| <= |s| && r == s[|s| - |r|..]
    ensures |r| > 0 ==> !IsTrimmable(r[0])
    ensures forall i :: 0 <= i < |s| - |r| ==> IsTrimmable(s[i])
  {
    if |s| > 0 && IsTrimmable(s[0]) then TrimStart(s[1..]) else s
  }

  function TrimEnd(s: string): (r: string)
    ensures |r| <= |s| && r == s[..|r|]
    ensures |r| > 0 ==> !IsTrimmable(r[|r| - 1])
    ensures forall i :: |r| <= i < |s| ==> IsTrimmable(s[i])
  {
    if |s| > 0 && IsTrimmable(s[|s| - 1]) then TrimEnd(s[..|s| - 1]) else s
  }

  /** String.trim(). */
  function Trim(s: string): string {
    TrimEnd(TrimStart(s))
  }

  predicate IsTrimmed(s: string) {
    |s| > 0 ==> !IsTrimmable(s[0]) && !IsTrimmable(s[|s| - 1])
  }

  /** trim() returns a contiguous slice of its argument with no trimmable
      character at either end, and everything it cut off was trimmable. */
  lemma TrimSlice(s: string)
    ensures IsTrimmed(Trim(s))
    ensures exists i, j :: 0 <= i <= j <= |s| && Trim(s) == s[i..j]
                           && (forall k :: 0 <= k < i ==> IsTrimmable(s[k]))
                           && (forall k :: j <= k < |s| ==> IsTrimmable(s[k]))
  {
    var t := TrimStart(s);
    var r := TrimEnd(t);
    var i := |s| - |t|;
    assert r == s[i..i + |r|];
    forall k | i + |r| <= k < |s| ensures IsTrimmable(s[k]) {
      assert s[k] == t[k - i];
    }
  }

  /** trim() is idempotent. */
  lemma TrimIdempotent(s: string)
    ensures Trim(Trim(s)) == Trim(s)
  {
    var r := Trim(s);
    assert TrimStart(r) == r;
    assert TrimEnd(r) == r;
  }

  /** A trimmed string is left alone by trim(). */
  lemma TrimOfTrimmed(s: string)
    requires IsTrimmed(s)
    ensures Trim(s) == s
  {
    assert TrimStart(s) == s;
  }

  /** trim() yields the empty string exactly when every character is trimmable. */
  lemma TrimEmptyIff(s: string)
    ensures Trim(s) == "" <==> forall i :: 0 <= i < |s| ==> IsTrimmable(s[i])
  {
    var t := TrimStart(s);
    if t != "" {
      assert !IsTrimmable(s[|s| - |t|]);
    }
  }

  /** Character.toLowerCase restricted to the characters it changes in ASCII. */
  function ToLowerChar(c: char): char {
    if 'A' <= c <= 'Z' then (c as int + 32) as char else c
  }

  /** String.toLowerCase(), ASCII letters only (see README). */
  function ToLowerCase(s: string): (r: string)
    ensures |r| == |s|
    ensures forall i :: 0 <= i < |s| ==> r[i] == ToLowerChar(s[i])
  {
    if s == [] then [] else [ToLowerChar(s[0])] + ToLowerCase(s[1..])
  }

  predicate IsLowerCase(s: string) {
    forall i :: 0 <= i < |s| ==> !('A' <= s[i] <= 'Z')
  }

  /** Lower-casing leaves no upper-case ASCII letter, is idempotent, and does
      not disturb trimmedness (it never maps a character across U+0020). */
  lemma LowerCaseProperties(s: string)
    ensures IsLowerCase(ToLowerCase(s))
    ensures ToLowerCase(ToLowerCase(s)) == ToLowerCase(s)
    ensures IsTrimmed(s) ==> IsTrimmed(ToLowerCase(s))
    ensures forall i :: 0 <= i < |s| ==> (IsTrimmable(ToLowerCase(s)[i]) <==> IsTrimmable(s[i]))
  {
    var r := ToLowerCase(s);
    var rr := ToLowerCase(r);
    forall i | 0 <= i < |s|
      ensures !('A' <= r[i] <= 'Z') && rr[i] == r[i] && (IsTrimmable(r[i]) <==> IsTrimmable(s[i]))
    {
      assert r[i] == ToLowerChar(s[i]);
      assert rr[i] == ToLowerChar(r[i]);
    }
  }

  predicate StartsWith(s: string, prefix: string) {
    |prefix| <= |s| && s[..|prefix|] == prefix
  }

  predicate EndsWith(s: string, suffix: string) {
    |suffix| <= |s| && s[|s| - |suffix|..] == suffix
  }

  /** Every field between separators, empty ones included. */
  function Fields(s: string, sep: char): (r: seq<string>)
    ensures |r| >= 1
  {
    if s == [] then [""]
    else
      var rest := Fields(s[1..], sep);
      if s[0] == sep then [""] + rest else [[s[0]] + rest[0]] + rest[1..]
  }

  /** The inverse of Fields: the fields glued back with the separator. */
  function Join(fields: seq<string>, sep: char): string {
    if |fields| == 0 then ""
    else if |fields| == 1 then fields[0]
    else fields[0] + [sep] + Join(fields[1..], sep)
  }

  /** No field contains the separator, and joining the fields gives back the
      original string. */
  lemma {:induction false} FieldsJoin(s: string, sep: char)
    ensures forall f :: f in Fields(s, sep) ==> sep !in f
    ensures Join(Fields(s, sep), sep) == s
  {
    if s != [] {
      FieldsJoin(s[1..], sep);
      var rest := Fields(s[1..], sep);
      if s[0] == sep {
        assert Fields(s, sep) == [""] + rest;
        assert Join([""] + rest, sep) == [sep] + Join(rest, sep);
      } else {
        var r := [[s[0]] + rest[0]] + rest[1..];
        if |rest| == 1 {
          assert Join(r, sep) == [s[0]] + rest[0];
        } else {
          assert Join(r, sep) == [s[0]] + rest[0] + [sep] + Join(rest[1..], sep);
          assert Join(rest, sep) == rest[0] + [sep] + Join(rest[1..], sep);
        }
        assert s == [s[0]] + s[1..];
      }
    }
  }

  /** Removes the empty strings at the end, as split with limit 0 does. */
  function DropTrailingEmpty(fs: seq<string>): (r: seq<string>)
    ensures |r| <= |fs| && r == fs[..|r|]
    ensures forall k :: |r| <= k < |fs| ==> fs[k] == ""
    ensures |r| > 0 ==> r[|r| - 1] != ""
  {
    if |fs| > 0 && fs[|fs| - 1] == "" then DropTrailingEmpty(fs[..|fs| - 1]) else fs
  }

  /** String.split on a single ordinary character: the string itself when the
      separator does not occur, otherwise the fields without trailing empties. */
  function Split(s: string, sep: char): (r: seq<string>)
    ensures sep !in s ==> r == [s]
    ensures sep in s ==> r == DropTrailingEmpty(Fields(s, sep))
  {
    if sep !in s then [s] else DropTrailingEmpty(Fields(s, sep))
  }

  /** Splitting loses only empty tokens: every field of the string is either a
      token of Split or empty. */
  lemma SplitKeepsNonEmpty(s: string, sep: char, f: string)
    requires f in Fields(s, sep) && f != ""
    ensures f in Split(s, sep)
  {
    if sep !in s {
      FieldsOfSepFree(s, sep);
    } else {
      var fs := Fields(s, sep);
      var k :| 0 <= k < |fs| && fs[k] == f;
      var r := DropTrailingEmpty(fs);
      assert k < |r|;
      assert r[k] == f;
    }
  }

  /** Every token of Split is a field. */
  lemma SplitTokensAreFields(s: string, sep: char, t: string)
    requires t in Split(s, sep)
    ensures t in Fields(s, sep)
  {
    if sep !in s {
      assert Fields(s, sep) == [s] by { FieldsOfSepFree(s, sep); }
    } else {
      var r := DropTrailingEmpty(Fields(s, sep));
      var k :| 0 <= k < |r| && r[k] == t;
      assert Fields(s, sep)[k] == t;
    }
  }

  lemma {:induction false} FieldsOfSepFree(s: string, sep: char)
    requires sep !in s
    ensures Fields(s, sep) == [s]
  {
    if s != [] {
      FieldsOfSepFree(s[1..], sep);
      assert [s[0]] + s[1..] == s;
    }
  }

  /** A separator-free prefix followed by the separator is one field. */
  lemma {:induction false} FieldsWithSep(x: string, y: string, sep: char)
    requires sep !in x
    ensures Fields(x + [sep] + y, sep) == [x] + Fields(y, sep)
  {
    if x != [] {
      FieldsWithSep(x[1..], y, sep);
      assert (x + [sep] + y)[1..] == x[1..] + [sep] + y;
      assert x[0] in x;
      assert [x[0]] + x[1..] == x;
    } else {
      assert x + [sep] + y == [sep] + y;
    }
  }
}
