/**
 * The short-code side of the views: `VALID_SHORT_URL_REGEX`,
 * `is_valid_short_url` and the alphabet `generate_random_short_url` draws from.
 */
module ShortCodes {
  import opened Models

  /** The `{1,32}` of `VALID_SHORT_URL_REGEX`. */
  const PATTERN_MAX_LENGTH: nat := 32
  const DEFAULT_SHORT_URL_LENGTH: nat := 6
  /** The one code refused although it matches the pattern: the API's own path prefix. */
  const RESERVED_SHORT_URL: string := "api"
  /** `string.ascii_lowercase`, `string.ascii_uppercase` and `string.digits`. */
  const ASCII_LOWERCASE: string := CharRun('a', 26)
  const ASCII_UPPERCASE: string := CharRun('A', 26)
  const DIGITS: string := CharRun('0', 10)
  /** `string.ascii_letters + string.digits`, the alphabet of generated codes. */
  const CHAR_SET: string := ASCII_LOWERCASE + ASCII_UPPERCASE + DIGITS

  /** The `count` consecutive ASCII characters starting at `first`. */
  function CharRun(first: char, count: nat): (s: string)
    requires first as int + count <= 128
    ensures |s| == count
    ensures forall k :: 0 <= k < count ==> s[k] as int == first as int + k
  {
    seq(count, k => if 0 <= k < count then (first as int + k) as char else first)
  }

  /** The character class `[A-Za-z0-9]`. */
  predicate IsAsciiAlnum(c: char)
  {
    ('A' <= c <= 'Z') || ('a' <= c <= 'z') || ('0' <= c <= '9')
  }

  /** `[A-Za-z0-9]{1,32}` matching all of `s`. */
  predicate IsAlnumRun(s: string)
  {
    1 <= |s| <= PATTERN_MAX_LENGTH && forall i :: 0 <= i < |s| ==> IsAsciiAlnum(s[i])
  }

  /**
   * `re.match(VALID_SHORT_URL_REGEX, s) is not None`. `^` anchors at the
   * start; Python's `$` matches at the end of the string or just before a
   * newline that ends it.
   */
  predicate MatchesShortUrlPattern(s: string)
  {
    IsAlnumRun(s) || (|s| >= 2 && s[|s| - 1] == '\n' && IsAlnumRun(s[..|s| - 1]))
  }

  /** `is_valid_short_url(s)`. */
  predicate IsValidShortUrl(s: string)
  {
    MatchesShortUrlPattern(s) && s != RESERVED_SHORT_URL
  }

  /**
   * The validator accepts exactly the non-reserved strings made of 1 to 32
   * ASCII letters and digits, optionally followed by one newline.
   */
  lemma ValidShortUrlCharacterised(s: string)
    ensures IsValidShortUrl(s) <==>
      s != RESERVED_SHORT_URL && exists body :: IsAlnumRun(body) && (s == body || s == body + "\n")
  {
    if |s| >= 2 && s[|s| - 1] == '\n' {
      assert s == s[..|s| - 1] + "\n";
    }
    if exists body :: IsAlnumRun(body) && (s == body || s == body + "\n") {
      var body :| IsAlnumRun(body) && (s == body || s == body + "\n");
      if s != body {
        assert s[..|s| - 1] == body;
      }
    }
  }

  /** No code the validator accepts holds a character outside the class, apart from one final newline. */
  lemma ValidShortUrlHasOnlyAlnum(s: string, i: nat)
    requires IsValidShortUrl(s) && i < |s|
    ensures IsAsciiAlnum(s[i]) || (i == |s| - 1 && s[i] == '\n')
  {
    if !IsAlnumRun(s) && i < |s| - 1 {
      assert s[i] == s[..|s| - 1][i];
    }
  }

  /**
   * A code the validator accepts fits the model's `short_url` field
   * (`max_length=32`), except that a trailing newline may make it one longer.
   */
  lemma ValidShortUrlFitsField(s: string)
    requires IsValidShortUrl(s)
    ensures PATTERN_MAX_LENGTH == MAX_SHORT_URL_LENGTH
    ensures 1 <= |s| <= MAX_SHORT_URL_LENGTH + 1
    ensures s[|s| - 1] != '\n' ==> |s| <= MAX_SHORT_URL_LENGTH
  {
  }

  /** The length cases of the test suite: 32 characters pass; none, 33, 34 and 3000 do not. */
  lemma ShortUrlLengthExamples()
    ensures IsValidShortUrl(seq(32, _ => '0'))
    ensures !IsValidShortUrl(seq(33, _ => '0'))
    ensures !IsValidShortUrl(seq(34, _ => '0'))
    ensures !IsValidShortUrl(seq(3000, _ => '0'))
    ensures !IsValidShortUrl("")
  {
    var z32 := seq(32, _ => '0');
    assert z32 + ['0'] == seq(33, _ => '0');
  }

  /** The character cases of the test suite: SQL, comment and quote fragments are refused. */
  lemma ShortUrlCharacterExamples()
    ensures !IsValidShortUrl("; drop urlrecords --")
    ensures !IsValidShortUrl("#") && !IsValidShortUrl("/*") && !IsValidShortUrl("/* --") && !IsValidShortUrl("--")
    ensures !IsValidShortUrl("\'\'\'") && !IsValidShortUrl("\"\"\"")
  {
    assert !IsAsciiAlnum("; drop urlrecords --"[0]);
    assert !IsAsciiAlnum("#"[0]) && !IsAsciiAlnum("/*"[0]) && !IsAsciiAlnum("/* --"[0]) && !IsAsciiAlnum("--"[0]);
    assert !IsAsciiAlnum("\'\'\'"[0]) && !IsAsciiAlnum("\"\"\""[0]);
  }

  /** The codes the retrieve tests send: one with `_` and `/` is refused, `1mp0ssib1eR3c0rd` passes. */
  lemma ShortUrlRetrieveExamples()
    ensures !IsValidShortUrl("und3rsc0red_patt3rn/withS1ash")
    ensures IsValidShortUrl("1mp0ssib1eR3c0rd")
  {
    assert "und3rsc0red_patt3rn/withS1ash"[11] == '_';
  }

  /** Only the exact lower-case reserved word is refused, and `$` lets one final newline through. */
  lemma ShortUrlReservedAndNewlineExamples()
    ensures !IsValidShortUrl("api") && IsValidShortUrl("Api")
    ensures IsValidShortUrl("short\n") && IsValidShortUrl("api\n")
  {
    assert "Api"[0] == 'A';
    assert "short\n"[..5] == "short";
    assert "api\n"[..3] == "api";
  }

  /** `random.sample(CHAR_SET, length)` as a string: `length` distinct characters of the alphabet. */
  predicate IsSample(s: string, length: nat)
  {
    |s| == length &&
    (forall i :: 0 <= i < |s| ==> s[i] in CHAR_SET) &&
    (forall i, j :: 0 <= i < j < |s| ==> s[i] != s[j])
  }

  /** The alphabet is the validator's character class, 62 characters, each once. */
  lemma CharSetAt(k: nat)
    requires k < |CHAR_SET|
    ensures k < 26 ==> CHAR_SET[k] as int == 'a' as int + k
    ensures 26 <= k < 52 ==> CHAR_SET[k] as int == 'A' as int + k - 26
    ensures 52 <= k ==> CHAR_SET[k] as int == '0' as int + k - 52
  {
    if k < 26 {
      assert CHAR_SET[k] == ASCII_LOWERCASE[k];
    } else if k < 52 {
      assert CHAR_SET[k] == ASCII_UPPERCASE[k - 26];
    } else {
      assert CHAR_SET[k] == DIGITS[k - 52];
    }
  }

  lemma CharSetIsAlnumClass(c: char)
    ensures c in CHAR_SET <==> IsAsciiAlnum(c)
    ensures |CHAR_SET| == 62
  {
    if 'a' <= c <= 'z' {
      CharSetAt(c as int - 'a' as int);
    } else if 'A' <= c <= 'Z' {
      CharSetAt(26 + c as int - 'A' as int);
    } else if '0' <= c <= '9' {
      CharSetAt(52 + c as int - '0' as int);
    }
    if c in CHAR_SET {
      var k :| 0 <= k < |CHAR_SET| && CHAR_SET[k] == c;
      CharSetAt(k);
    }
  }

  /** Every character of the alphabet occurs in it once. */
  lemma CharSetHasNoRepeats(i: nat, j: nat)
    requires i < j < |CHAR_SET|
    ensures CHAR_SET[i] != CHAR_SET[j]
  {
    CharSetAt(i);
    CharSetAt(j);
  }

  /**
   * A sample of 1 to 32 characters passes the validator unless it is the
   * reserved word; so every sample of the default length 6 does.
   */
  lemma SampleIsValidShortUrl(s: string, length: nat)
    requires IsSample(s, length) && 1 <= length <= PATTERN_MAX_LENGTH
    ensures IsValidShortUrl(s) <==> s != RESERVED_SHORT_URL
    ensures length == DEFAULT_SHORT_URL_LENGTH ==> IsValidShortUrl(s)
  {
    forall i | 0 <= i < |s|
      ensures IsAsciiAlnum(s[i])
    {
      CharSetIsAlnumClass(s[i]);
    }
  }

  /** With length 3 the generator can draw the reserved word, which the validator then refuses. */
  lemma ReservedWordIsASample()
    ensures IsSample(RESERVED_SHORT_URL, 3) && !IsValidShortUrl(RESERVED_SHORT_URL)
  {
    CharSetIsAlnumClass('a');
    CharSetIsAlnumClass('p');
    CharSetIsAlnumClass('i');
  }
}
