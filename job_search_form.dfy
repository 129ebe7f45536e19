/** The submit handler of the job-search form: it checks the company name,
    derives an HR e-mail address, a LinkedIn company URL and a cold-email
    body from it, and stores them while toggling a loading flag. */
module JobSearchForm {
  import opened Chars
  import opened Text

  datatype Option<T> = None | Some(value: T)

  /** What the form shows: the three derived strings. */
  datatype CompanyInfo = CompanyInfo(hrEmail: string, linkedinUrl: string, emailTemplate: string)

  /** Which notification the handler raises. */
  datatype Notice = MissingName | Retrieved | RetrievalFailed

  const EmailPrefix := "hr@"
  const EmailSuffix := ".com"
  const LinkedinPrefix := "https://www.linkedin.com/company/"

  /** `!companyName.trim()`: blank exactly when every character is white
      space (the empty name included). */
  function IsBlank(name: string): (b: bool)
    ensures b <==> AllWhitespace(name)
  {
    Trim(name) == []
  }

  /** `name.toLowerCase().replace(/\s+/g, '-')`. */
  function Slug(name: string): (r: string)
    ensures IsLowerCase(r) && NoWhitespace(r)
  {
    var r := ReplaceRuns(Lower(name), "-");
    ReplaceRunsNoWhitespace(Lower(name), "-");
    assert IsLowerCase(r) by {
      forall i | 0 <= i < |r| ensures !IsUpper(r[i]) {
        assert r[i] in r;
        if r[i] in Lower(name) {
          var k :| 0 <= k < |name| && Lower(name)[k] == r[i];
        }
      }
    }
    r
  }

  /** `name.toLowerCase().replace(/\s+/g, '')`: the lower-cased name with
      every white-space character deleted. */
  function EmailLocal(name: string): (r: string)
    ensures r == NonWs(Lower(name))
    ensures IsLowerCase(r) && NoWhitespace(r)
  {
    DeleteRunsIsNonWs(Lower(name));
    var r := ReplaceRuns(Lower(name), []);
    assert IsLowerCase(r) by {
      forall i | 0 <= i < |r| ensures !IsUpper(r[i]) {
        assert r[i] in r;
        var k :| 0 <= k < |name| && Lower(name)[k] == r[i];
      }
    }
    r
  }

  /** `hr@${...}.com`: the address starts with `hr@`, ends with `.com`
      and between them holds the lower-cased name without white space. */
  function HrEmail(name: string): (r: string)
    ensures |r| == |EmailPrefix| + |NonWs(name)| + |EmailSuffix|
    ensures r[..|EmailPrefix|] == EmailPrefix
    ensures r[|r| - |EmailSuffix|..] == EmailSuffix
    ensures r[|EmailPrefix|..|r| - |EmailSuffix|] == NonWs(Lower(name))
    ensures IsLowerCase(r) && NoWhitespace(r)
  {
    var local := EmailLocal(name);
    NonWsOfLower(name);
    Affixes(EmailPrefix, local, EmailSuffix);
    EmailAffixesPlain();
    EmailPrefix + local + EmailSuffix
  }

  /** Where a prefix, a middle part and a suffix sit in their
      concatenation, and that the whole is lower-case and free of white
      space when the parts are. */
  lemma Affixes(p: string, m: string, q: string)
    ensures (p + m + q)[..|p|] == p
    ensures (p + m + q)[|p|..|p| + |m|] == m
    ensures (p + m + q)[|p| + |m|..] == q
    ensures (p + m + q)[|p|..] == m + q
    ensures NoWhitespace(p) && NoWhitespace(m) && NoWhitespace(q) ==> NoWhitespace(p + m + q)
    ensures IsLowerCase(p) && IsLowerCase(m) && IsLowerCase(q) ==> IsLowerCase(p + m + q)
  {
    assert p + m + q == p + (m + q);
    if NoWhitespace(p) && NoWhitespace(m) && NoWhitespace(q) {
      ConcatNoWhitespace(m, q);
      ConcatNoWhitespace(p, m + q);
    }
    if IsLowerCase(p) && IsLowerCase(m) && IsLowerCase(q) {
      ConcatLowerCase(m, q);
      ConcatLowerCase(p, m + q);
    }
  }

  lemma EmailAffixesPlain()
    ensures NoWhitespace(EmailPrefix) && IsLowerCase(EmailPrefix)
    ensures NoWhitespace(EmailSuffix) && IsLowerCase(EmailSuffix)
  {
  }

  lemma LinkedinPrefixPlain()
    ensures NoWhitespace(LinkedinPrefix) && IsLowerCase(LinkedinPrefix)
  {
    var scheme, host, path := "https://", "www.linkedin.com", "/company/";
    assert LinkedinPrefix == scheme + host + path;
    assert NoWhitespace(scheme) && IsLowerCase(scheme);
    assert NoWhitespace(host) && IsLowerCase(host);
    assert NoWhitespace(path) && IsLowerCase(path);
    Affixes(scheme, host, path);
  }

  /** Deleting white space and lower-casing commute, so the e-mail's local
      part is also the lower-cased non-white-space characters of the name. */
  lemma {:induction false} NonWsOfLower(name: string)
    ensures NonWs(Lower(name)) == Lower(NonWs(name))
  {
    if name != [] {
      assert Lower(name) == [ToLower(name[0])] + Lower(name[1..]);
      assert Lower(name)[1..] == Lower(name[1..]);
      NonWsOfLower(name[1..]);
      if !IsWhitespace(name[0]) {
        assert Lower([name[0]] + NonWs(name[1..])) == [ToLower(name[0])] + Lower(NonWs(name[1..]));
      }
    }
  }

  /** The LinkedIn company URL: the fixed company-page prefix followed by
      the slug of the name, lower-case and free of white space. */
  function LinkedinUrl(name: string): (r: string)
    ensures |r| >= |LinkedinPrefix|
    ensures r[..|LinkedinPrefix|] == LinkedinPrefix
    ensures r[|LinkedinPrefix|..] == ReplaceRuns(Lower(name), "-")
    ensures IsLowerCase(r) && NoWhitespace(r)
  {
    var slug := Slug(name);
    Affixes(LinkedinPrefix, slug, []);
    LinkedinPrefixPlain();
    assert LinkedinPrefix + slug + [] == LinkedinPrefix + slug;
    LinkedinPrefix + slug
  }

  /** Slugging a slug changes nothing. */
  lemma SlugIdempotent(name: string)
    ensures Slug(Slug(name)) == Slug(name)
  {
    var s := Slug(name);
    assert Lower(s) == s;
    ReplaceRunsFixesNoWhitespace(s, "-");
  }

  /** The e-mail local part and the slug are the same scan of the
      lower-cased name written out two ways: a white-space run becomes
      nothing in the one and a single `-` in the other. */
  lemma SlugAndEmailLocalShareRuns(name: string)
    ensures Slug(name) == Render(Pieces(Lower(name)), "-")
    ensures EmailLocal(name) == Render(Pieces(Lower(name)), [])
    ensures KeptChars(Pieces(Lower(name))) == Lower(NonWs(name))
    ensures NoAdjacentGaps(Pieces(Lower(name)))
  {
    ReplaceRunsRendersPieces(Lower(name), "-");
    ReplaceRunsRendersPieces(Lower(name), []);
    PiecesShape(Lower(name), false);
    NonWsOfLower(name);
  }

  /** The derivations see the untrimmed name: a leading run of white space
      gives a leading `-` in front of the slug of the rest. */
  lemma SlugLeadingRun(name: string)
    requires name != [] && IsWhitespace(name[0])
    ensures Slug(name) == "-" + Slug(TrimStart(name))
  {
    var low := Lower(name);
    assert IsWhitespace(low[0]);
    assert ReplaceRuns(low, "-") == "-" + ReplaceRuns(TrimStart(low), "-");
    LowerTrimStart(name);
  }

  /** A trailing run of white space gives a trailing `-`. */
  lemma SlugTrailingRun(name: string)
    requires name != [] && IsWhitespace(name[|name| - 1])
    ensures |Slug(name)| > 0 && Slug(name)[|Slug(name)| - 1] == '-'
  {
    var low := Lower(name);
    assert IsWhitespace(low[|low| - 1]);
    ReplaceRunsTrailing(low, "-");
  }

  // ---------------------------------------------------------------------
  // The cold-email body.

  const Opening := "Dear Hiring Manager at "
  const AfterGreeting := "," + GreetingTail
  const GreetingTail := "\n\nI hope this email finds you well. I came across "
  const AfterIntro := "'s innovative work in [industry/field] and was immediately drawn to your company's mission to [company mission/values].\n\nWith [X] years of experience in [relevant field] and a proven track record of [key achievement], I believe I could be a valuable addition to your team.\n\nI would welcome the opportunity to discuss how my background aligns with your needs and learn more about current opportunities at "
  const Closing := ".\n\nThank you for considering my interest. I look forward to your response.\n\nBest regards,\n[Your name]"

  /** A text with three splice points: the fixed parts around them. */
  datatype Boilerplate = Boilerplate(opening: string, afterGreeting: string, afterIntro: string, closing: string) {
    function FixedText(): string {
      opening + afterGreeting + afterIntro + closing
    }

    /** Where the second and third copies of a name of length `n` start;
        the first starts right after the opening. */
    function SecondSplice(n: nat): nat {
      |opening| + n + |afterGreeting|
    }

    function ThirdSplice(n: nat): nat {
      SecondSplice(n) + n + |afterIntro|
    }

    /** The text with `name` spliced in at the three points. */
    function Fill(name: string): string {
      opening + (name + (afterGreeting + (name + (afterIntro + (name + closing)))))
    }

    /** What a filled-in text holds outside its three splices. */
    function Unfilled(letter: string, n: nat): string
      requires |letter| == |FixedText()| + 3 * n
    {
      var a, b, c := |opening|, SecondSplice(n), ThirdSplice(n);
      letter[..a] + letter[a + n..b] + letter[b + n..c] + letter[c + n..]
    }

    /** The name read back out of a filled-in text: the first splice, kept
        only when the whole text is this boilerplate filled with it. */
    function NameOf(letter: string): (r: Option<string>)
      ensures r.Some? ==> Fill(r.value) == letter
    {
      var fixed := |FixedText()|;
      if |letter| < fixed || (|letter| - fixed) % 3 != 0 then None
      else
        var n := (|letter| - fixed) / 3;
        var name := letter[|opening|..|opening| + n];
        if Fill(name) == letter then Some(name) else None
    }
  }

  /** The cold-email body of the mock response. */
  const ColdEmail := Boilerplate(Opening, AfterGreeting, AfterIntro, Closing)

  /** The cold-email body with the name, as typed, spliced in three times;
      it opens with the greeting to the hiring manager at that name,
      followed by a comma. */
  function Template(name: string): (r: string)
    ensures |r| == |ColdEmail.FixedText()| + 3 * |name|
    ensures r[..|Opening|] == Opening
    ensures r[|Opening|..|Opening| + |name|] == name
    ensures r[|Opening| + |name|] == ','
  {
    assert AfterGreeting[0] == ',';
    FillOpens(ColdEmail, name);
    ColdEmail.Fill(name)
  }

  /** A filled boilerplate opens with its opening, the name, and the first
      character after the first splice. */
  lemma FillOpens(t: Boilerplate, name: string)
    requires |t.afterGreeting| > 0
    ensures var r := t.Fill(name);
      && |r| == |t.FixedText()| + 3 * |name|
      && r[..|t.opening|] == t.opening
      && r[|t.opening|..|t.opening| + |name|] == name
      && r[|t.opening| + |name|] == t.afterGreeting[0]
  {
    var r := t.Fill(name);
    var a := |t.opening| + |name|;
    FillSlices(t, name);
    assert r[a] == r[a..t.SecondSplice(|name|)][0];
  }

  /** If the text from `i` on is `x + y`, then `x` sits at `i` and `y`
      follows it. */
  lemma Peel(r: string, i: nat, x: string, y: string)
    requires i <= |r| && r[i..] == x + y
    ensures i + |x| <= |r| && r[i..i + |x|] == x && r[i + |x|..] == y
  {
    assert r[i..i + |x|] == (x + y)[..|x|];
    assert r[i + |x|..] == (x + y)[|x|..];
  }

  /** In any boilerplate filled with a name, the fixed parts and the three
      copies of the name follow each other in order, each where expected. */
  lemma FillSlices(t: Boilerplate, name: string)
    ensures var r := t.Fill(name);
      var n := |name|;
      var a, b, c := |t.opening|, t.SecondSplice(n), t.ThirdSplice(n);
      && |r| == |t.FixedText()| + 3 * n
      && r[..a] == t.opening
      && r[a..a + n] == name
      && r[a + n..b] == t.afterGreeting
      && r[b..b + n] == name
      && r[b + n..c] == t.afterIntro
      && r[c..c + n] == name
      && r[c + n..] == t.closing
  {
    FillFront(t, name);
    FillBack(t, name);
  }

  /** The second half of `FillSlices`: from the second splice on. */
  lemma FillBack(t: Boilerplate, name: string)
    ensures var r := t.Fill(name);
      var n := |name|;
      var b, c := t.SecondSplice(n), t.ThirdSplice(n);
      && |r| == |t.FixedText()| + 3 * n
      && r[b..b + n] == name
      && r[b + n..c] == t.afterIntro
      && r[c..c + n] == name
      && r[c + n..] == t.closing
  {
    FillSuffix(t, name);
    PeelThree(t.Fill(name), t.SecondSplice(|name|), name, t.afterIntro, name, t.closing);
  }

  /** Four consecutive windows of a string that ends in `x + (y + (z + w))`. */
  lemma PeelThree(r: string, i: nat, x: string, y: string, z: string, w: string)
    requires i <= |r| && r[i..] == x + (y + (z + w))
    ensures var j, k := i + |x|, i + |x| + |y|;
      && k + |z| <= |r|
      && r[i..j] == x && r[j..k] == y && r[k..k + |z|] == z && r[k + |z|..] == w
  {
    Peel(r, i, x, y + (z + w));
    Peel(r, i + |x|, y, z + w);
    Peel(r, i + |x| + |y|, z, w);
  }

  /** From the second splice on, a filled boilerplate is the rest of it. */
  lemma FillSuffix(t: Boilerplate, name: string)
    ensures |t.Fill(name)| == |t.FixedText()| + 3 * |name|
    ensures t.Fill(name)[t.SecondSplice(|name|)..] == name + (t.afterIntro + (name + t.closing))
  {
    FillFront(t, name);
  }

  /** The first half of `FillSlices`: up to the second splice. */
  lemma FillFront(t: Boilerplate, name: string)
    ensures var r := t.Fill(name);
      var n := |name|;
      var a, b := |t.opening|, t.SecondSplice(n);
      && |r| == |t.FixedText()| + 3 * n
      && r[..a] == t.opening
      && r[a..a + n] == name
      && r[a + n..b] == t.afterGreeting
      && r[b..] == name + (t.afterIntro + (name + t.closing))
  {
    var r := t.Fill(name);
    var n := |name|;
    var a := |t.opening|;
    var t2n := name + (t.afterIntro + (name + t.closing));
    var t1 := t.afterGreeting + t2n;
    var t1n := name + t1;
    assert r[0..] == r;
    Peel(r, 0, t.opening, t1n);
    assert r[..a] == r[0..a];
    Peel(r, a, name, t1);
    Peel(r, a + n, t.afterGreeting, t2n);
  }

  /** Outside its three splices, a filled boilerplate is the fixed text. */
  lemma FillUnfilled(t: Boilerplate, name: string)
    ensures |t.Fill(name)| == |t.FixedText()| + 3 * |name|
    ensures t.Unfilled(t.Fill(name), |name|) == t.FixedText()
  {
    FillSlices(t, name);
  }

  /** The name appears verbatim, not lower-cased, at the three splice
      points of the cold e-mail, and what lies outside them is the same
      fixed text whatever the name. */
  lemma TemplateSplices(name: string)
    ensures var a, b, c := |Opening|, ColdEmail.SecondSplice(|name|), ColdEmail.ThirdSplice(|name|);
      && Template(name)[a..a + |name|] == name
      && Template(name)[b..b + |name|] == name
      && Template(name)[c..c + |name|] == name
      && ColdEmail.Unfilled(Template(name), |name|) == ColdEmail.FixedText()
  {
    FillSlices(ColdEmail, name);
    FillUnfilled(ColdEmail, name);
  }

  /** Reading the name back out of a filled boilerplate gives the name. */
  lemma FillRoundTrip(t: Boilerplate, name: string)
    ensures t.NameOf(t.Fill(name)) == Some(name)
  {
    FillSlices(t, name);
    var letter := t.Fill(name);
    var k := |letter| - |t.FixedText()|;
    assert k == 3 * |name|;
    DivThree(|name|);
  }

  lemma DivThree(n: nat)
    ensures (3 * n) % 3 == 0 && (3 * n) / 3 == n
  {
  }

  /** Different names give different cold e-mails. */
  lemma TemplateInjective(a: string, b: string)
    requires Template(a) == Template(b)
    ensures a == b
  {
    FillRoundTrip(ColdEmail, a);
    FillRoundTrip(ColdEmail, b);
  }

  /** The mock response the handler builds from the untrimmed name: the
      address is `hr@` + the lower-cased name without white space + `.com`,
      the URL is the company-page prefix + the slug, and the cold e-mail is
      the boilerplate filled with the name, which can be read back out. */
  function Derive(name: string): (r: CompanyInfo)
    ensures r.hrEmail == EmailPrefix + NonWs(Lower(name)) + EmailSuffix
    ensures r.linkedinUrl == LinkedinPrefix + ReplaceRuns(Lower(name), "-")
    ensures ColdEmail.NameOf(r.emailTemplate) == Some(name)
  {
    var email := HrEmail(name);
    assert email == email[..|EmailPrefix|] + email[|EmailPrefix|..|email| - |EmailSuffix|] + email[|email| - |EmailSuffix|..];
    var url := LinkedinUrl(name);
    assert url == url[..|LinkedinPrefix|] + url[|LinkedinPrefix|..];
    FillRoundTrip(ColdEmail, name);
    CompanyInfo(email, url, Template(name))
  }

  // ---------------------------------------------------------------------
  // The form's state and its submit handler.

  class Form {
    var companyName: string
    var loading: bool
    var companyInfo: Option<CompanyInfo>
    /** Where the response comes from. Every form is built with the mock
        response `Derive`, which stands in for a real lookup. */
    const respond: string -> CompanyInfo

    /** The initial state: empty input, not loading, nothing shown, and
        the mock response as the response source. */
    constructor ()
      ensures companyName == [] && !loading && companyInfo == None
      ensures forall name :: respond(name) == Derive(name)
    {
      companyName := [];
      loading := false;
      companyInfo := None;
      respond := Derive;
    }

    /** The input's change handler. */
    method SetCompanyName(name: string)
      modifies this
      ensures companyName == name
      ensures loading == old(loading) && companyInfo == old(companyInfo)
    {
      companyName := name;
    }

    /** The body of the `try` block, run while `loading` is set: it builds
        the response for the name and stores it. `fault` stands for the
        retrieval throwing before the store, in which case nothing is
        stored. */
    method Retrieve(fault: bool) returns (notice: Notice)
      requires loading
      modifies this`companyInfo
      ensures fault ==> notice == RetrievalFailed && companyInfo == old(companyInfo)
      ensures !fault ==> notice == Retrieved && companyInfo == Some(respond(companyName))
    {
      if fault {
        notice := RetrievalFailed;
      } else {
        companyInfo := Some(respond(companyName));
        notice := Retrieved;
      }
    }

    /** `handleSubmit`: a blank name is rejected with no state change;
        otherwise `loading` is set around the retrieval and cleared
        afterwards, whether it succeeded or failed. */
    method HandleSubmit(fault: bool) returns (notice: Notice)
      modifies this
      ensures companyName == old(companyName)
      ensures IsBlank(companyName) ==>
        notice == MissingName && loading == old(loading) && companyInfo == old(companyInfo)
      ensures !IsBlank(companyName) ==> !loading
      ensures !IsBlank(companyName) && fault ==>
        notice == RetrievalFailed && companyInfo == old(companyInfo)
      ensures !IsBlank(companyName) && !fault ==>
        notice == Retrieved && companyInfo == Some(respond(companyName))
    {
      if IsBlank(companyName) {
        return MissingName;
      }
      loading := true;
      notice := Retrieve(fault);
      loading := false;
    }
  }
}
