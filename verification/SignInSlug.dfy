/**
 Workspace sign-in slugs: which strings are allowed, the slug derived from a company name, and the ordered
 candidates that make collision handling bounded.
 */
module SignInSlug {
  import opened Wrappers

  const MAX_LENGTH := 48

  const RESERVED := [
    "admin", "api", "apply", "auth", "hire", "login", "settings", "support", "system", "workspace", "www"
  ]

  predicate OneOf(words: seq<string>, s: string) { words != [] && (words[0] == s || OneOf(words[1..], s)) }

  predicate SlugChar(c: char) { 'a' <= c <= 'z' || '0' <= c <= '9' }

  predicate HexChar(c: char) { 'a' <= c <= 'f' || '0' <= c <= '9' }

  predicate Spelled(s: string) { forall i :: 0 <= i < |s| ==> SlugChar(s[i]) || s[i] == '-' }

  predicate NoDoubleDash(s: string) { forall i :: 0 < i < |s| ==> !(s[i - 1] == '-' && s[i] == '-') }

  /** The pattern ^[a-z0-9]+(?:-[a-z0-9]+)*$. */
  predicate Matches(s: string) {
    && 0 < |s| && Spelled(s) && NoDoubleDash(s)
    && s[0] != '-' && s[|s| - 1] != '-'
  }

  predicate ObjectIdText(s: string) { |s| == 24 && forall i :: 0 <= i < |s| ==> HexChar(s[i]) }

  predicate Allowed(s: string) {
    && 2 <= |s| <= MAX_LENGTH
    && Matches(s)
    && !ObjectIdText(s)
    && !("xn--" <= s)
    && !OneOf(RESERVED, s)
  }

  /** What the runtime supplies: `normalize` is trim and lower-case, `fold` is NFKD without combining marks
      and lower-case, `hex` is the text of an ObjectId. */
  datatype Naming = Naming(normalize: string -> string, fold: string -> string, hex: nat -> string) {
    ghost predicate Lawful() {
      && (forall s :: Allowed(s) ==> normalize(s) == s)
      && (forall n: nat :: ObjectIdText(hex(n)))
    }

    function Parse(value: string): Option<string> {
      if Allowed(normalize(value)) then Some(normalize(value)) else None
    }

    function Base(companyName: string): string {
      OrCompany(TrimSlug(Stripped(Hyphenated(fold(companyName)))))
    }

    function Candidates(companyName: string, id: nat): seq<string> {
      CandidatesOf(Base(companyName), hex(id))
    }
  }

  // ---- Text steps ----

  /** Every run of characters outside [a-z0-9] becomes one dash. */
  function Hyphenated(s: string): (r: string)
    ensures Spelled(r) && NoDoubleDash(r)
    ensures |r| > 0 ==> |s| > 0 && (r[0] == '-' <==> !SlugChar(s[0]))
  {
    if s == "" then ""
    else if SlugChar(s[0]) then [s[0]] + Hyphenated(s[1..])
    else if |s| > 1 && !SlugChar(s[1]) then Hyphenated(s[1..])
    else ['-'] + Hyphenated(s[1..])
  }

  /** The longest prefix that does not end in a dash. */
  function WithoutTrailingDashes(s: string): (r: string)
    ensures r <= s
    ensures r == "" || r[|r| - 1] != '-'
    ensures forall i :: |r| <= i < |s| ==> s[i] == '-'
  {
    if s != "" && s[|s| - 1] == '-' then WithoutTrailingDashes(s[..|s| - 1]) else s
  }

  function WithoutLeadingDashes(s: string): (r: string)
    ensures |r| <= |s| && r == s[|s| - |r|..]
    ensures r == "" || r[0] != '-'
  {
    if s != "" && s[0] == '-' then WithoutLeadingDashes(s[1..]) else s
  }

  function Stripped(s: string): string { WithoutTrailingDashes(WithoutLeadingDashes(s)) }

  function TrimSlug(s: string): string {
    WithoutTrailingDashes(if |s| <= MAX_LENGTH then s else s[..MAX_LENGTH])
  }

  function WithSuffix(base: string, suffix: string): string
    requires |suffix| < MAX_LENGTH
  {
    var maxBaseLength := MAX_LENGTH - |suffix| - 1;
    var trimmed := WithoutTrailingDashes(if |base| <= maxBaseLength then base else base[..maxBaseLength]);
    (if trimmed == "" then "company" else trimmed) + "-" + suffix
  }

  function OrCompany(normalized: string): string {
    var candidate := if |normalized| >= 2 then normalized else "company";
    if Allowed(candidate) then candidate else TrimSlug("company-" + candidate)
  }

  /** An id's text always has 24 digits; `slice(-8)` and `slice(-12)` take its last ones. */
  function CandidatesOf(base: string, id: string): seq<string> {
    if |id| != 24 then []
    else [base, WithSuffix(base, id[16..]), WithSuffix(base, id[12..]), WithSuffix("workspace", id)]
  }

  // ---- Every candidate is an allowed slug ----

  lemma {:induction false} DashedIsNotOneOf(words: seq<string>, s: string, i: nat)
    requires i < |s| && s[i] == '-'
    requires forall k, j :: 0 <= k < |words| && 0 <= j < |words[k]| ==> words[k][j] != '-'
    ensures !OneOf(words, s)
  {
    if words != [] { DashedIsNotOneOf(words[1..], s, i); }
  }

  /** A well-spelled slug with a dash is neither reserved, nor an ObjectId, nor punycode. */
  lemma DashedIsAllowed(s: string, i: nat)
    requires 2 <= |s| <= MAX_LENGTH && Matches(s)
    requires i < |s| && s[i] == '-'
    ensures Allowed(s)
  {
    DashedIsNotOneOf(RESERVED, s, i);
    assert !HexChar(s[i]);
    if |s| > 3 { assert !(s[3 - 1] == '-' && s[3] == '-'); }
  }

  lemma PartKeepsSpelling(s: string, at: nat, r: string)
    requires at + |r| <= |s| && r == s[at..at + |r|]
    requires Spelled(s) && NoDoubleDash(s)
    ensures Spelled(r) && NoDoubleDash(r)
  {
    forall i | 0 < i < |r| ensures !(r[i - 1] == '-' && r[i] == '-') {
      assert !(s[at + i - 1] == '-' && s[at + i] == '-');
    }
  }

  lemma LedKeepsSpelling(s: string)
    requires Spelled(s) && NoDoubleDash(s)
    ensures var led := WithoutLeadingDashes(s); Spelled(led) && NoDoubleDash(led)
  {
    var led := WithoutLeadingDashes(s);
    PartKeepsSpelling(s, |s| - |led|, led);
  }

  /** A prefix of a well-spelled text that neither starts nor ends in a dash. */
  lemma PrefixMatches(led: string, r: string)
    requires Spelled(led) && NoDoubleDash(led) && r <= led
    requires r != "" && led[0] != '-' && r[|r| - 1] != '-'
    ensures Matches(r)
  {
    PartKeepsSpelling(led, 0, r);
  }

  lemma PrefixTwice(a: string, b: string, c: string)
    requires a <= b && b <= c
    ensures a <= c && (a != "" ==> c != "" && a[0] == c[0])
  {}

  lemma TrimKeepsStart(s: string)
    ensures var r := TrimSlug(s);
            && r <= s && |r| <= MAX_LENGTH
            && (r != "" ==> r[|r| - 1] != '-' && s != "" && r[0] == s[0])
  {
    var cut := if |s| <= MAX_LENGTH then s else s[..MAX_LENGTH];
    PrefixTwice(WithoutTrailingDashes(cut), cut, s);
  }

  lemma TrimmedMatches(s: string)
    requires Spelled(s) && NoDoubleDash(s)
    ensures var r := TrimSlug(Stripped(s)); r == "" || (Matches(r) && |r| <= MAX_LENGTH)
  {
    var led := WithoutLeadingDashes(s);
    var inner := WithoutTrailingDashes(led);
    var r := TrimSlug(inner);
    LedKeepsSpelling(s);
    TrimKeepsStart(inner);
    if r != "" {
      PrefixTwice(r, inner, led);
      PrefixMatches(led, r);
    }
  }

  lemma CompanyPrefixed(candidate: string)
    requires Matches(candidate) && |candidate| <= MAX_LENGTH
    ensures Allowed(TrimSlug("company-" + candidate))
  {
    var company := "company-";
    var prefixed := company + candidate;
    var trimmed := TrimSlug(prefixed);
    assert forall i :: 0 <= i < 7 ==> SlugChar(company[i]);
    assert prefixed[7] == '-' && prefixed[8] == candidate[0] && prefixed[0] == 'c';
    assert trimmed <= prefixed && |trimmed| >= 9;
    assert trimmed[7] == '-' && trimmed[0] == 'c';
    forall i | 0 < i < |trimmed| ensures !(trimmed[i - 1] == '-' && trimmed[i] == '-') {
      if i > 8 { assert trimmed[i] == candidate[i - 8] && trimmed[i - 1] == candidate[i - 9]; }
    }
    DashedIsAllowed(trimmed, 7);
  }

  lemma CompanyMatches()
    ensures Matches("company") && |"company"| == 7
  {}

  lemma BaseIsAllowed(normalized: string)
    requires normalized == "" || (Matches(normalized) && |normalized| <= MAX_LENGTH)
    ensures Allowed(OrCompany(normalized))
  {
    CompanyMatches();
    CompanyPrefixed(if |normalized| >= 2 then normalized else "company");
  }

  lemma DashJoinedMatches(head: string, tail: string)
    requires head != "" && Spelled(head) && NoDoubleDash(head) && head[0] != '-' && head[|head| - 1] != '-'
    requires tail != "" && forall i :: 0 <= i < |tail| ==> HexChar(tail[i])
    ensures Matches(head + "-" + tail)
  {
    var s := head + "-" + tail;
    assert forall i :: 0 <= i < |head| ==> s[i] == head[i];
    assert s[|head|] == '-';
    assert forall i :: 0 <= i < |tail| ==> s[|head| + 1 + i] == tail[i];
    forall i | |head| < i < |s| ensures SlugChar(s[i]) { assert s[i] == tail[i - |head| - 1]; }
  }

  lemma SuffixedIsAllowed(base: string, suffix: string)
    requires Matches(base)
    requires 8 <= |suffix| <= 24 && forall i :: 0 <= i < |suffix| ==> HexChar(suffix[i])
    ensures Allowed(WithSuffix(base, suffix))
  {
    var maxBaseLength := MAX_LENGTH - |suffix| - 1;
    var cut := if |base| <= maxBaseLength then base else base[..maxBaseLength];
    var trimmed := WithoutTrailingDashes(cut);
    assert cut[0] == base[0] && trimmed != "";
    PartKeepsSpelling(base, 0, trimmed);
    DashJoinedMatches(trimmed, suffix);
    var slug := trimmed + "-" + suffix;
    assert slug[|trimmed|] == '-';
    DashedIsAllowed(slug, |trimmed|);
  }

  // ---- What the slug keeps of the name ----

  /** The letters and digits of a text, in order. */
  function Letters(s: string): string {
    if s == "" then "" else (if SlugChar(s[0]) then [s[0]] else "") + Letters(s[1..])
  }

  lemma {:induction false} LettersConcat(a: string, b: string)
    ensures Letters(a + b) == Letters(a) + Letters(b)
  {
    if a == "" {
      assert a + b == b;
    } else {
      LettersConcat(a[1..], b);
      assert (a + b)[1..] == a[1..] + b && (a + b)[0] == a[0];
    }
  }

  lemma {:induction false} HyphensKeepLetters(s: string)
    ensures Letters(Hyphenated(s)) == Letters(s)
  {
    if s != "" {
      HyphensKeepLetters(s[1..]);
      if SlugChar(s[0]) {
        LettersConcat([s[0]], Hyphenated(s[1..]));
      } else if !(|s| > 1 && !SlugChar(s[1])) {
        LettersConcat(['-'], Hyphenated(s[1..]));
      }
    }
  }

  lemma {:induction false} LeadingDashesHoldNoLetters(s: string)
    ensures Letters(WithoutLeadingDashes(s)) == Letters(s)
  {
    if s != "" && s[0] == '-' { LeadingDashesHoldNoLetters(s[1..]); }
  }

  lemma {:induction false} TrailingDashesHoldNoLetters(s: string)
    ensures Letters(WithoutTrailingDashes(s)) == Letters(s)
  {
    if s != "" && s[|s| - 1] == '-' {
      TrailingDashesHoldNoLetters(s[..|s| - 1]);
      assert s == s[..|s| - 1] + ['-'];
      LettersConcat(s[..|s| - 1], ['-']);
    }
  }

  /** A name whose hyphenated form is short and allowed has it as its base, with every letter and digit of the
      name in order; any other name that has two of them left keeps them behind the company prefix, up to the cut. */
  lemma BaseKeepsLetters(naming: Naming, companyName: string)
    ensures var slug := Stripped(Hyphenated(naming.fold(companyName)));
            && Letters(slug) == Letters(naming.fold(companyName))
            && (Allowed(slug) ==> naming.Base(companyName) == slug)
            && (2 <= |slug| <= 40 && !Allowed(slug) ==> naming.Base(companyName) == "company-" + slug)
  {
    var folded := naming.fold(companyName);
    StrippedKeepsLetters(folded);
    var slug := Stripped(Hyphenated(folded));
    if 2 <= |slug| <= MAX_LENGTH { ShortBase(slug); }
  }

  lemma StrippedKeepsLetters(folded: string)
    ensures Letters(Stripped(Hyphenated(folded))) == Letters(folded)
    ensures var slug := Stripped(Hyphenated(folded)); slug == "" || slug[|slug| - 1] != '-'
  {
    HyphensKeepLetters(folded);
    LeadingDashesHoldNoLetters(Hyphenated(folded));
    TrailingDashesHoldNoLetters(WithoutLeadingDashes(Hyphenated(folded)));
  }

  lemma ShortBase(slug: string)
    requires 2 <= |slug| <= MAX_LENGTH && slug[|slug| - 1] != '-'
    ensures OrCompany(TrimSlug(slug)) ==
              if Allowed(slug) then slug else TrimSlug("company-" + slug)
    ensures |slug| <= 40 ==> TrimSlug("company-" + slug) == "company-" + slug
  {
    assert TrimSlug(slug) == slug;
    var prefixed := "company-" + slug;
    assert prefixed[|prefixed| - 1] == slug[|slug| - 1];
  }

  lemma {:induction false} AllowedIsHyphenated(s: string)
    requires Spelled(s) && NoDoubleDash(s)
    ensures Hyphenated(s) == s
  {
    if s != "" {
      var rest := s[1..];
      forall i | 0 < i < |rest| ensures !(rest[i - 1] == '-' && rest[i] == '-') {
        assert !(s[i] == '-' && s[i + 1] == '-');
      }
      AllowedIsHyphenated(rest);
      assert s == [s[0]] + rest;
      if |s| > 1 { assert !(s[0] == '-' && s[1] == '-'); }
    }
  }

  /** An allowed folded name is its own base. */
  lemma AllowedIsItsBase(naming: Naming, companyName: string)
    requires Allowed(naming.fold(companyName))
    ensures naming.Base(companyName) == naming.fold(companyName)
  {
    AllowedIsHyphenated(naming.fold(companyName));
  }

  /** A sign-in slug, said outright: runs of letters and digits joined by single hyphens, not the text of an ObjectId,
      not punycode, and no word the routes use. */
  ghost predicate IsSlug(s: string) {
    && 2 <= |s| <= 48 && s[0] != '-' && s[|s| - 1] != '-'
    && (forall i :: 0 <= i < |s| ==> 'a' <= s[i] <= 'z' || '0' <= s[i] <= '9' || s[i] == '-')
    && (forall i :: 0 <= i < |s| - 1 ==> s[i] != '-' || s[i + 1] != '-')
    && (|s| == 24 ==> exists i :: 0 <= i < 24 && ('g' <= s[i] <= 'z' || s[i] == '-'))
    && s !in ["admin", "api", "apply", "auth", "hire", "login", "settings", "support", "system", "workspace", "www"]
  }

  lemma {:induction false} OneOfIff(words: seq<string>, s: string)
    ensures OneOf(words, s) <==> s in words
  {
    if words != [] { OneOfIff(words[1..], s); }
  }

  lemma SpelledIff(s: string)
    requires |s| >= 2
    ensures Matches(s) <==>
              && s[0] != '-' && s[|s| - 1] != '-'
              && (forall i :: 0 <= i < |s| ==> 'a' <= s[i] <= 'z' || '0' <= s[i] <= '9' || s[i] == '-')
              && (forall i :: 0 <= i < |s| - 1 ==> s[i] != '-' || s[i + 1] != '-')
  {
    if NoDoubleDash(s) {
      forall i | 0 <= i < |s| - 1 ensures s[i] != '-' || s[i + 1] != '-' {
        assert !(s[i + 1 - 1] == '-' && s[i + 1] == '-');
      }
    }
  }

  lemma NoPunycode(s: string)
    requires NoDoubleDash(s)
    ensures !("xn--" <= s)
  {
    if |s| > 3 { assert !(s[3 - 1] == '-' && s[3] == '-'); }
  }

  lemma AllowedIff(s: string)
    ensures Allowed(s) <==> IsSlug(s)
  {
    OneOfIff(RESERVED, s);
    if |s| >= 2 {
      SpelledIff(s);
      if Matches(s) { NoPunycode(s); }
    }
  }

  /** A string parses to itself exactly when it is allowed. */
  lemma ParsesToItselfIff(naming: Naming, s: string)
    requires naming.Lawful()
    ensures naming.Parse(s) == Some(s) <==> IsSlug(s)
  {
    AllowedIff(s);
  }

  lemma WorkspaceMatches()
    ensures Matches("workspace")
  {}

  lemma SuffixedCandidates(base: string, id: string)
    requires Matches(base) && ObjectIdText(id)
    ensures Allowed(WithSuffix(base, id[16..]))
    ensures Allowed(WithSuffix(base, id[12..]))
    ensures Allowed(WithSuffix(base, id))
  {
    SuffixedIsAllowed(base, id[16..]);
    SuffixedIsAllowed(base, id[12..]);
    SuffixedIsAllowed(base, id);
  }

  lemma CandidatesAreAllowed(base: string, id: string)
    requires Allowed(base) && ObjectIdText(id)
    ensures forall c :: c in CandidatesOf(base, id) ==> Allowed(c)
  {
    WorkspaceMatches();
    SuffixedCandidates(base, id);
    SuffixedCandidates("workspace", id);
  }

  /** Whatever the company name, every candidate parses to itself. */
  lemma CandidatesParse(naming: Naming, companyName: string, id: nat)
    requires naming.Lawful()
    ensures |naming.Candidates(companyName, id)| == 4
    ensures forall c :: c in naming.Candidates(companyName, id) ==> naming.Parse(c) == Some(c)
  {
    var folded := Hyphenated(naming.fold(companyName));
    TrimmedMatches(folded);
    BaseIsAllowed(TrimSlug(Stripped(folded)));
    CandidatesAreAllowed(naming.Base(companyName), naming.hex(id));
  }

  lemma SuffixForm(base: string, suffix: string)
    requires base != "" && base[0] != '-' && |suffix| < MAX_LENGTH - 1
    ensures Cut(WithSuffix(base, suffix), base, suffix, 47 - |suffix|)
  {
    var room := MAX_LENGTH - |suffix| - 1;
    var cut := if |base| <= room then base else base[..room];
    var kept := WithoutTrailingDashes(cut);
    assert cut[0] == base[0];
    assert base[..|kept|] == kept;
  }

  lemma WorkspaceForm(hex: string)
    requires |hex| == 24
    ensures WithSuffix("workspace", hex) == "workspace-" + hex
  {
    assert WithoutTrailingDashes("workspace") == "workspace";
    assert "workspace" + "-" == "workspace-";
  }

  /** `text` is a beginning of at most `room` characters, joined to the suffix. */
  ghost predicate Cut(text: string, base: string, suffix: string, room: nat) {
    exists n: nat :: 0 < n <= |base| && n <= room && text == base[..n] + "-" + suffix
  }

  lemma SuffixForms(base: string, hex: string)
    requires base != "" && base[0] != '-' && |hex| == 24
    ensures var cs := CandidatesOf(base, hex);
            && |cs| == 4 && cs[0] == base && Cut(cs[1], base, hex[16..], 39) && Cut(cs[2], base, hex[12..], 35)
            && cs[3] == "workspace-" + hex
  {
    SuffixForm(base, hex[16..]);
    SuffixForm(base, hex[12..]);
    WorkspaceForm(hex);
  }

  lemma BaseIsSlug(naming: Naming, companyName: string)
    ensures Allowed(naming.Base(companyName)) && IsSlug(naming.Base(companyName))
  {
    var folded := Hyphenated(naming.fold(companyName));
    TrimmedMatches(folded);
    BaseIsAllowed(TrimSlug(Stripped(folded)));
    AllowedIff(naming.Base(companyName));
  }

  /** The candidates offered: the base; its beginning with the last eight and with the last twelve digits of the id;
      and `workspace-` with the whole id. */
  lemma CandidateForms(naming: Naming, companyName: string, id: nat)
    requires naming.Lawful()
    ensures var cs, base, hex := naming.Candidates(companyName, id), naming.Base(companyName), naming.hex(id);
            && |cs| == 4 && |hex| == 24 && cs[0] == base && IsSlug(base)
            && Cut(cs[1], base, hex[16..], 39) && Cut(cs[2], base, hex[12..], 35)
            && cs[3] == "workspace-" + hex
  {
    assert ObjectIdText(naming.hex(id));
    BaseIsSlug(naming, companyName);
    SuffixForms(naming.Base(companyName), naming.hex(id));
  }

  /** The last candidate of a workspace is nobody else's. */
  lemma LastCandidateIsOwn(naming: Naming, a: string, b: string, i: nat, j: nat)
    requires naming.Lawful() && naming.hex(i) != naming.hex(j)
    ensures |naming.Candidates(a, i)| == |naming.Candidates(b, j)| == 4
    ensures naming.Candidates(a, i)[3] != naming.Candidates(b, j)[3]
  {
    CandidateForms(naming, a, i);
    CandidateForms(naming, b, j);
    assert ("workspace-" + naming.hex(i))[10..] == naming.hex(i);
    assert ("workspace-" + naming.hex(j))[10..] == naming.hex(j);
  }
}
