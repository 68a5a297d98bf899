/** IndexerProperties.getSupportedExtensionsSet: the comma-separated
    extension filter turned into a set of lower-case ".ext" strings. */
module IndexerProperties {
  import opened Wrappers
  import opened JavaStrings

  /** The value used when dms.indexer.supported-extensions is not configured. */
  const DefaultSupportedExtensions: string := ".txt,.pdf,.docx"

  /** The two map stages of the stream: trim, then lower-case. */
  function Canonical(token: string): string {
    ToLowerCase(Trim(token))
  }

  /** The stream's filter: non-empty and starting with a dot. */
  predicate Accepted(e: string) {
    e != "" && StartsWith(e, ".")
  }

  /** The two map stages applied to every token, in stream order. */
  function Canonicals(tokens: seq<string>): seq<string> {
    MapEach(Canonical, tokens)
  }

  /** Stream.map: `f` applied to every element, in order. */
  function MapEach(f: string -> string, s: seq<string>): seq<string> {
    seq(|s|, i requires 0 <= i < |s| => f(s[i]))
  }

  /** Collectors.toSet over the mapped and filtered tokens. */
  function CollectExtensions(tokens: seq<string>): set<string> {
    set e | e in Canonicals(tokens) && Accepted(e)
  }

  /** getSupportedExtensionsSet(); None stands for a null property. */
  function GetSupportedExtensionsSet(supportedExtensions: Option<string>): set<string> {
    if supportedExtensions.None? || IsBlank(supportedExtensions.value) then {}
    else CollectExtensions(Split(supportedExtensions.value, ','))
  }

  /** A string is collected exactly when some token maps to it and it passes
      the filter. */
  lemma CollectExtensionsIff(tokens: seq<string>, e: string)
    ensures e in CollectExtensions(tokens) <==>
            Accepted(e) && exists i :: 0 <= i < |tokens| && Canonical(tokens[i]) == e
  {
    var cs := Canonicals(tokens);
    if e in cs {
      var i :| 0 <= i < |cs| && cs[i] == e;
      assert Canonical(tokens[i]) == e;
    }
    if exists i :: 0 <= i < |tokens| && Canonical(tokens[i]) == e {
      var i :| 0 <= i < |tokens| && Canonical(tokens[i]) == e;
      assert cs[i] == e;
    }
  }

  /** A null or blank property yields the empty set; otherwise a string is in
      the set exactly when some comma-separated token, trimmed and
      lower-cased, equals it and it is non-empty and starts with ".". */
  lemma SupportedExtensionsMembership(supportedExtensions: Option<string>, e: string)
    ensures supportedExtensions.None? || IsBlank(supportedExtensions.value) ==>
              GetSupportedExtensionsSet(supportedExtensions) == {}
    ensures supportedExtensions.Some? && !IsBlank(supportedExtensions.value) ==>
              (e in GetSupportedExtensionsSet(supportedExtensions) <==>
               Accepted(e) && exists t :: t in Split(supportedExtensions.value, ',') && Canonical(t) == e)
  {
    if supportedExtensions.Some? && !IsBlank(supportedExtensions.value) {
      var tokens := Split(supportedExtensions.value, ',');
      CollectExtensionsIff(tokens, e);
      if exists t :: t in tokens && Canonical(t) == e {
        var t :| t in tokens && Canonical(t) == e;
        var i :| 0 <= i < |tokens| && tokens[i] == t;
      }
    }
  }

  /** Every element of the set is trimmed, lower-case, non-empty and starts
      with ".". */
  lemma SupportedExtensionsWellFormed(supportedExtensions: Option<string>)
    ensures forall e :: e in GetSupportedExtensionsSet(supportedExtensions) ==>
              && IsTrimmed(e) && IsLowerCase(e) && e != "" && e[0] == '.'
  {
    forall e | e in GetSupportedExtensionsSet(supportedExtensions)
      ensures IsTrimmed(e) && IsLowerCase(e) && e != "" && e[0] == '.'
    {
      SupportedExtensionsMembership(supportedExtensions, e);
      var t :| t in Split(supportedExtensions.value, ',') && Canonical(t) == e;
      TrimSlice(t);
      LowerCaseProperties(Trim(t));
    }
  }

  /** The result is a set: the order of the tokens and repeated tokens do not
      matter. */
  lemma CollectExtensionsIgnoresOrderAndDuplicates(t1: seq<string>, t2: seq<string>)
    requires forall t :: t in t1 <==> t in t2
    ensures CollectExtensions(t1) == CollectExtensions(t2)
  {
    forall e ensures e in CollectExtensions(t1) <==> e in CollectExtensions(t2) {
      CollectExtensionsIff(t1, e);
      CollectExtensionsIff(t2, e);
      if exists i :: 0 <= i < |t1| && Canonical(t1[i]) == e {
        var i :| 0 <= i < |t1| && Canonical(t1[i]) == e;
        assert t1[i] in t2;
      }
      if exists i :: 0 <= i < |t2| && Canonical(t2[i]) == e {
        var i :| 0 <= i < |t2| && Canonical(t2[i]) == e;
        assert t2[i] in t1;
      }
    }
  }

  lemma CanonicalOfLowerExtension(ext: string)
    requires |ext| > 1 && ext[0] == '.' && ext[|ext| - 1] != ' '
    requires forall i :: 0 <= i < |ext| ==> 'a' <= ext[i] <= 'z' || ext[i] == '.'
    ensures Canonical(ext) == ext && Accepted(ext)
  {
    TrimOfTrimmed(ext);
    assert ToLowerCase(ext) == ext;
  }

  lemma SplitThree(x: string, y: string, z: string, sep: char)
    requires sep !in x && sep !in y && sep !in z && z != ""
    ensures Split(x + [sep] + y + [sep] + z, sep) == [x, y, z]
  {
    var tail := y + [sep] + z;
    var s := x + [sep] + tail;
    assert x + [sep] + y + [sep] + z == s;
    assert Fields(tail, sep) == [y, z] by {
      FieldsOfSepFree(z, sep);
      FieldsWithSep(y, z, sep);
    }
    assert Fields(s, sep) == [x, y, z] by {
      FieldsWithSep(x, tail, sep);
    }
    assert sep in s by {
      assert s[|x|] == sep;
    }
    assert DropTrailingEmpty([x, y, z]) == [x, y, z];
  }

  /** The stream's map stage over three tokens, for any mapping. */
  lemma MapThree(f: string -> string, a: string, b: string, c: string)
    ensures MapEach(f, [a, b, c]) == [f(a), f(b), f(c)]
  {
    var m := MapEach(f, [a, b, c]);
    assert m[0] == f(a) && m[1] == f(b) && m[2] == f(c);
  }

  lemma AcceptedThree(x: string, y: string, z: string)
    requires Accepted(x) && Accepted(y) && Accepted(z)
    ensures (set e | e in [x, y, z] && Accepted(e)) == {x, y, z}
  {
  }

  lemma DefaultTokens(s: string)
    requires s == DefaultSupportedExtensions
    ensures !IsBlank(s)
    ensures Split(s, ',') == [".txt", ".pdf", ".docx"]
  {
    assert !IsWhitespace(s[0]);
    assert s == ".txt" + [','] + ".pdf" + [','] + ".docx";
    SplitThree(".txt", ".pdf", ".docx", ',');
  }

  lemma DefaultTokensCanonical()
    ensures Canonical(".txt") == ".txt" && Accepted(".txt")
    ensures Canonical(".pdf") == ".pdf" && Accepted(".pdf")
    ensures Canonical(".docx") == ".docx" && Accepted(".docx")
  {
    CanonicalOfLowerExtension(".txt");
    CanonicalOfLowerExtension(".pdf");
    CanonicalOfLowerExtension(".docx");
  }

  /** The default value yields exactly {".txt", ".pdf", ".docx"}. (The value
      is passed as a parameter so that the prover does not unfold the
      recursive definitions on the literal.) */
  lemma DefaultSupportedExtensionsSet(s: string)
    requires s == DefaultSupportedExtensions
    ensures GetSupportedExtensionsSet(Some(s)) == {".txt", ".pdf", ".docx"}
  {
    DefaultTokens(s);
    DefaultTokensCanonical();
    MapThree(Canonical, ".txt", ".pdf", ".docx");
    AcceptedThree(".txt", ".pdf", ".docx");
  }
}
