/** The email check of the contact form, the regular expression literal
    `/^[^\\s@]+@[^\\s@]+\\.[^\\s@]+$/` of public/script.js, line 97, modelled
    as it is written rather than as its authors presumably meant it.

    Inside a JavaScript regular expression literal, `\\` is one literal
    backslash. So `[^\\s@]` is the class of every character except a
    backslash, the letter `s` and `@` (not "except whitespace and @"), and
    `\\.` is a literal backslash followed by `.`, any one character other than a
    line terminator (not "a literal dot"). Without the `m` flag, `^` and `$`
    anchor at the two ends of the whole input.

    Without the `u` flag the pattern runs over UTF-16 code units, while a
    `string` here is a sequence of code points. The two readings differ at
    one place only: `.` takes a single code unit, so after the backslash a
    character outside the Basic Multilingual Plane leaves its low surrogate
    behind, and that surrogate is in the class and can make up the last run
    by itself. `MatchesAt` states this case explicitly. Everywhere else a
    surrogate pair is in the class exactly when its code point is, since no
    surrogate is a backslash, `s`, `@` or a line terminator.

    The pattern evidently meant, `/^[^\s@]+@[^\s@]+\.[^\s@]+$/`, is given
    below as `IntendedShape` for comparison only: the validator uses the
    pattern as written. */
module EmailPattern {
  import opened JsString

  /** Membership in the character class `[^\\s@]` as written. */
  predicate InClass(c: char) {
    c != '\\' && c != 's' && c != '@'
  }

  predicate AllInClass(s: string) {
    forall k :: 0 <= k < |s| ==> InClass(s[k])
  }

  /** `.` without the `s` flag: any character but a line terminator. */
  predicate IsDotChar(c: char) {
    !IsLineTerminator(c)
  }

  /** A code point that UTF-16 writes as a surrogate pair. */
  predicate IsAstral(c: char) {
    c > '\U{FFFF}'
  }

  /** `s` splits as `local@domain\Xtld` with the `@` at `at` and the
      backslash at `bs`: `local`, `domain` and `tld` are runs of
      `[^\\s@]`, `local` and `domain` non-empty, and `X` is any
      non-line-terminator. `tld` may be empty only when `X` is astral: `.`
      then takes the high surrogate and the low one is the whole last run. */
  predicate MatchesAt(s: string, at: int, bs: int) {
    && 0 < at && at + 1 < bs && bs + 1 < |s|
    && s[at] == '@' && s[bs] == '\\'
    && AllInClass(s[..at]) && AllInClass(s[at + 1..bs])
    && IsDotChar(s[bs + 1]) && AllInClass(s[bs + 2..])
    && (bs + 2 < |s| || IsAstral(s[bs + 1]))
  }

  /** The language of the pattern as written, by its decomposition. */
  ghost predicate MatchesAsWritten(s: string) {
    exists at, bs :: MatchesAt(s, at, bs)
  }

  /** Where a match must put the backslash: the first one after the `@`. */
  function BackslashAfter(s: string, at: nat): (bs: nat)
    requires at < |s|
    ensures at < bs <= |s|
  {
    at + 1 + IndexOf(s[at + 1..], '\\')
  }

  /** `emailRegex.test(s)`, computed without backtracking: as `@` and the
      backslash are outside the class, a match can only use the first `@`
      and the first backslash after it. */
  function Test(s: string): (r: bool)
    ensures r ==> MatchesAsWritten(s)
    ensures r ==> '@' in s && '\\' in s
  {
    var at := IndexOf(s, '@');
    at < |s| && MatchesAt(s, at, BackslashAfter(s, at))
  }

  /** `Test` decides exactly the language of the pattern as written. */
  lemma TestMatchesPattern(s: string)
    ensures Test(s) <==> MatchesAsWritten(s)
  {
    if MatchesAsWritten(s) {
      var at, bs :| MatchesAt(s, at, bs);
      OnlySplit(s, at, bs);
    }
  }

  /** Any split the pattern accepts is the one `Test` inspects. */
  lemma OnlySplit(s: string, at: int, bs: int)
    requires MatchesAt(s, at, bs)
    ensures IndexOf(s, '@') == at
    ensures BackslashAfter(s, at) == bs
  {
    assert forall k :: 0 <= k < at ==> s[k] == s[..at][k];
    var rest := s[at + 1..];
    assert rest[bs - at - 1] == '\\';
    assert forall k :: 0 <= k < bs - at - 1 ==> rest[k] == s[at + 1..bs][k];
  }

  /** Every string the pattern accepts contains a backslash, so no ordinary
      address such as `jo@example.com` gets through. */
  lemma AcceptedHaveBackslash(s: string)
    requires Test(s)
    ensures '\\' in s
  {
    var at := IndexOf(s, '@');
    assert s[BackslashAfter(s, at)] == '\\';
  }

  /** Every string the pattern accepts is free of the letter `s` before its
      `@`, so an address such as `sam@example.com` cannot get through
      whatever follows. */
  lemma AcceptedLocalPartHasNoLetterS(s: string)
    requires Test(s)
    ensures 's' !in s[..IndexOf(s, '@')]
  {
    var local := s[..IndexOf(s, '@')];
    assert forall k :: 0 <= k < |local| ==> InClass(local[k]);
  }

  /** The class `[^\s@]` the pattern evidently means: anything but
      whitespace and `@`. */
  predicate InIntendedClass(c: char) {
    !IsWhitespace(c) && c != '@'
  }

  predicate AllInIntendedClass(s: string) {
    forall k :: 0 <= k < |s| ==> InIntendedClass(s[k])
  }

  /** `s` splits as `local@domain.tld` for the evidently intended pattern
      `/^[^\s@]+@[^\s@]+\.[^\s@]+$/` (one backslash each): the `@` at
      `at`, a literal dot at `dot`, and three non-empty runs of the intended
      class. */
  ghost predicate IntendedAt(s: string, at: int, dot: int) {
    && 0 < at && at + 1 < dot < |s| - 1
    && s[at] == '@' && s[dot] == '.'
    && AllInIntendedClass(s[..at]) && AllInIntendedClass(s[at + 1..dot])
    && AllInIntendedClass(s[dot + 1..])
  }

  ghost predicate IntendedShape(s: string) {
    exists at, dot :: IntendedAt(s, at, dot)
  }

  /** Lower-case ASCII words are in the intended class. */
  lemma LowercaseInIntendedClass(w: string)
    requires forall k :: 0 <= k < |w| ==> 'a' <= w[k] <= 'z'
    ensures AllInIntendedClass(w)
  {
  }

  /** Any `local@domain.tld` built from non-empty runs of the intended
      class has the intended shape. */
  lemma IntendedFromParts(local: string, domain: string, tld: string)
    requires local != [] && domain != [] && tld != []
    requires AllInIntendedClass(local) && AllInIntendedClass(domain) && AllInIntendedClass(tld)
    ensures IntendedShape(local + "@" + domain + "." + tld)
  {
    var s := local + "@" + domain + "." + tld;
    var at, dot := |local|, |local| + 1 + |domain|;
    assert s[..at] == local;
    assert s[at + 1..dot] == domain;
    assert s[dot + 1..] == tld;
    assert IntendedAt(s, at, dot);
  }

  /** An ordinary address has the intended shape... */
  lemma OrdinaryAddressIntended()
    ensures IntendedShape("jo@example.com")
  {
    LowercaseInIntendedClass("jo");
    LowercaseInIntendedClass("example");
    LowercaseInIntendedClass("com");
    IntendedFromParts("jo", "example", "com");
    assert "jo" + "@" + "example" + "." + "com" == "jo@example.com";
  }

  /** ...and the pattern as written rejects it. */
  lemma OrdinaryAddressRejected()
    ensures !Test("jo@example.com")
  {
    assert '\\' !in "jo@example.com";
    if Test("jo@example.com") {
      AcceptedHaveBackslash("jo@example.com");
    }
  }

  /** A backslash followed by a single astral character is accepted: its
      low surrogate is the last run. */
  lemma AstralAfterBackslashAccepted()
    ensures Test("a@b\\\U{1F600}")
  {
    var s := "a@b\\\U{1F600}";
    assert IndexOf(s, '@') == 1;
    assert s[2..] == "b\\\U{1F600}";
    assert IndexOf(s[2..], '\\') == 1;
  }

  /** ...and the pattern as written accepts a string that is no address. */
  lemma BackslashFormAccepted()
    ensures Test("a@b\\xc")
  {
    var s := "a@b\\xc";
    assert IndexOf(s, '@') == 1;
    assert s[2..] == "b\\xc";
    assert IndexOf(s[2..], '\\') == 1;
  }
}
