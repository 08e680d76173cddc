/** The contact form's submit handler (`initContactForm` in script.js): five
    fields are trimmed, four of them are required, the e-mail address must
    match `^[^\s@]+@[^\s@]+\.[^\s@]+$`, and only a valid submission clears the
    form. The status banner shows one of three fixed messages. */
module ContactForm {

  /** The characters JavaScript's `\s` class matches and `String.prototype.trim`
      removes: WhiteSpace and LineTerminator of ECMAScript (tab, line feed,
      vertical tab, form feed, carriage return, space, no-break space, the
      Unicode space separators, line and paragraph separator, byte order mark). */
  predicate IsSpace(c: char)
  {
    c == '\t' || c == '\n' || c == '\U{B}' || c == '\U{C}' || c == '\r' || c == ' '
    || c == '\U{A0}' || c == '\U{1680}' || ('\U{2000}' <= c <= '\U{200A}')
    || c == '\U{2028}' || c == '\U{2029}' || c == '\U{202F}' || c == '\U{205F}'
    || c == '\U{3000}' || c == '\U{FEFF}'
  }

  /** A string that trims to nothing. */
  predicate Blank(s: string)
  {
    forall k :: 0 <= k < |s| ==> IsSpace(s[k])
  }

  /** The number of white-space characters `s` starts with. */
  function LeadingSpace(s: string): (n: nat)
    ensures n <= |s| && Blank(s[..n])
    ensures n < |s| ==> !IsSpace(s[n])
  {
    if s != [] && IsSpace(s[0]) then
      var n := 1 + LeadingSpace(s[1..]);
      assert s[..n] == [s[0]] + s[1..][..n - 1];
      n
    else 0
  }

  /** The number of white-space characters `s` ends with. */
  function TrailingSpace(s: string): (n: nat)
    ensures n <= |s| && Blank(s[|s| - n..])
    ensures n < |s| ==> !IsSpace(s[|s| - 1 - n])
  {
    if s != [] && IsSpace(s[|s| - 1]) then
      var n := 1 + TrailingSpace(s[..|s| - 1]);
      assert s[|s| - n..] == s[..|s| - 1][|s| - n..] + [s[|s| - 1]];
      n
    else 0
  }

  /** `String.prototype.trim`: leading and trailing white space removed. */
  function Trim(s: string): (r: string)
    ensures r == [] <==> Blank(s)
    ensures r != [] ==> !IsSpace(r[0]) && !IsSpace(r[|r| - 1])
  {
    var i := LeadingSpace(s);
    var j := |s| - TrailingSpace(s[i..]);
    assert s[i..][..j - i] == s[i..j];
    assert i < j ==> s[i..j][0] == s[i] && s[i..j][j - i - 1] == s[i..][j - i - 1];
    assert i == j ==> s[..i] == s;
    s[i..j]
  }

  /** The two cut points `Trim` uses: everything before `i` and from `j` on
      is white space, and what is kept lies between them. */
  lemma TrimCut(s: string) returns (i: nat, j: nat)
    ensures i <= j <= |s| && Trim(s) == s[i..j]
    ensures Blank(s[..i]) && Blank(s[j..])
  {
    i := LeadingSpace(s);
    j := |s| - TrailingSpace(s[i..]);
    assert s[j..] == s[i..][j - i..];
  }

  /** What `Trim` keeps is an infix of its argument, and what it cuts off on
      either side is white space only. */
  lemma TrimIsInfix(s: string)
    ensures exists i, j :: 0 <= i <= j <= |s| && Trim(s) == s[i..j]
                           && Blank(s[..i]) && Blank(s[j..])
  {
    var i, j := TrimCut(s);
  }

  // ---------------------------------------------------------------------------
  // The e-mail pattern ^[^\s@]+@[^\s@]+\.[^\s@]+$

  /** One character of the class `[^\s@]`. */
  predicate IsPlain(c: char)
  {
    !IsSpace(c) && c != '@'
  }

  predicate AllPlain(s: string)
  {
    forall k :: 0 <= k < |s| ==> IsPlain(s[k])
  }

  /** What the regular expression means: the whole string is a non-empty run of
      `[^\s@]`, an `@`, a non-empty run, a literal `.`, and a non-empty run.
      `at` and `dot` are the positions of the `@` and of the chosen `.`. */
  ghost predicate MatchesEmailPattern(s: string)
  {
    exists at, dot :: 0 < at && at + 1 < dot && dot + 1 < |s|
                      && s[at] == '@' && s[dot] == '.'
                      && AllPlain(s[..at]) && AllPlain(s[at + 1..dot]) && AllPlain(s[dot + 1..])
  }

  /** The position of the first `c` in `s`, or `|s|` when there is none. */
  function IndexOf(s: string, c: char): (i: nat)
    ensures i <= |s|
    ensures forall k :: 0 <= k < i ==> s[k] != c
    ensures i < |s| ==> s[i] == c
  {
    if s == [] then 0
    else if s[0] == c then 0
    else 1 + IndexOf(s[1..], c)
  }

  /** The domain part after the `@`: free of `\s` and `@`, and with a `.`
      that has at least one character on each side. */
  predicate IsValidDomain(d: string)
  {
    AllPlain(d) && 3 <= |d| && '.' in d[1..|d| - 1]
  }

  /** A decision procedure for the pattern: split at the first `@`, check the
      local part, then the domain. */
  predicate IsValidEmail(s: string)
  {
    var at := IndexOf(s, '@');
    0 < at < |s| && AllPlain(s[..at]) && IsValidDomain(s[at + 1..])
  }

  /** Every string the decision procedure accepts matches the pattern. */
  lemma EmailCheckSound(s: string)
    requires IsValidEmail(s)
    ensures MatchesEmailPattern(s)
  {
    var at := IndexOf(s, '@');
    var d := s[at + 1..];
    var inner := d[1..|d| - 1];
    var m :| 0 <= m < |inner| && inner[m] == '.';
    var dot := at + 2 + m;
    assert s[dot] == d[m + 1] == '.';
    assert s[at + 1..dot] == d[..m + 1];
    assert s[dot + 1..] == d[m + 2..];
    assert AllPlain(s[at + 1..dot]);
    assert AllPlain(s[dot + 1..]);
  }

  /** A run of `[^\s@]` characters contains no `@`, so an `@` right after it
      is the first one. */
  lemma FirstAtAfterPlainRun(s: string, at: nat)
    requires at < |s| && s[at] == '@' && AllPlain(s[..at])
    ensures IndexOf(s, '@') == at
  {
  }

  /** Two runs of `[^\s@]` around a `.` form one run. */
  lemma PlainAroundDot(s: string, lo: nat, dot: nat)
    requires lo <= dot < |s| && s[dot] == '.'
    requires AllPlain(s[lo..dot]) && AllPlain(s[dot + 1..])
    ensures AllPlain(s[lo..])
  {
    forall k | 0 <= k < |s| - lo ensures IsPlain(s[lo..][k]) {
      if lo + k < dot {
        assert s[lo..][k] == s[lo..dot][k];
      } else if lo + k > dot {
        assert s[lo..][k] == s[dot + 1..][lo + k - dot - 1];
      }
    }
  }

  /** A run of `[^\s@]` with a `.` strictly inside it is a valid domain. */
  lemma DomainWithInnerDot(d: string, m: nat)
    requires AllPlain(d) && 0 < m && m + 1 < |d| && d[m] == '.'
    ensures IsValidDomain(d)
  {
    assert d[1..|d| - 1][m - 1] == '.';
  }

  /** Every string the pattern matches is accepted by the decision procedure:
      the `@` of the match is the first one, and the domain is all `[^\s@]`. */
  lemma EmailCheckComplete(s: string)
    requires MatchesEmailPattern(s)
    ensures IsValidEmail(s)
  {
    var at, dot :| 0 < at && at + 1 < dot && dot + 1 < |s|
                   && s[at] == '@' && s[dot] == '.'
                   && AllPlain(s[..at]) && AllPlain(s[at + 1..dot]) && AllPlain(s[dot + 1..]);
    FirstAtAfterPlainRun(s, at);
    PlainAroundDot(s, at + 1, dot);
    assert s[at + 1..][dot - at - 1] == '.';
    DomainWithInnerDot(s[at + 1..], dot - at - 1);
  }

  /** The decision procedure accepts exactly the strings the regular
      expression matches. */
  lemma EmailCheckMatchesPattern(s: string)
    ensures IsValidEmail(s) <==> MatchesEmailPattern(s)
  {
    if IsValidEmail(s) { EmailCheckSound(s); }
    if MatchesEmailPattern(s) { EmailCheckComplete(s); }
  }

  /** The addresses named in the page's behaviour: a well-formed one is
      accepted; no dot in the domain, a dot right after the `@`, and a trailing
      dot are all rejected. */
  lemma AcceptsPlainAddress()
    ensures MatchesEmailPattern("jane@x.com")
  {
    var s := "jane@x.com";
    assert s[..4] == "jane" && s[5..6] == "x" && s[7..] == "com";
    assert s[4] == '@' && s[6] == '.';
  }

  lemma RejectsDomainWithoutDot()
    ensures !MatchesEmailPattern("foo@bar")
  {
  }

  lemma RejectsDotAfterAt()
    ensures !MatchesEmailPattern("a@.c")
  {
  }

  lemma RejectsTrailingDot()
    ensures !MatchesEmailPattern("a@b.")
  {
  }

  // ---------------------------------------------------------------------------
  // Submission

  /** The raw values of the five inputs `name`, `email`, `firm`, `phone` and
      `message`. */
  datatype Entry = Entry(name: string, email: string, firm: string, phone: string, message: string)

  /** The three ways a submission ends. */
  datatype Outcome = MissingRequired | InvalidEmail | Sent

  /** The decision the submit handler makes: a blank required field wins,
      then the e-mail pattern; `phone` is trimmed but never consulted. */
  function Validate(e: Entry): (r: Outcome)
    ensures r == MissingRequired <==>
              Blank(e.name) || Blank(e.email) || Blank(e.firm) || Blank(e.message)
    ensures r == InvalidEmail <==>
              !Blank(e.name) && !Blank(e.email) && !Blank(e.firm) && !Blank(e.message)
              && !MatchesEmailPattern(Trim(e.email))
    ensures r == Sent <==>
              !Blank(e.name) && !Blank(e.firm) && !Blank(e.message)
              && MatchesEmailPattern(Trim(e.email))
  {
    var name, email, firm, message := Trim(e.name), Trim(e.email), Trim(e.firm), Trim(e.message);
    EmailCheckMatchesPattern(email);
    if name == [] || email == [] || firm == [] || message == [] then MissingRequired
    else if !IsValidEmail(email) then InvalidEmail
    else Sent
  }

  /** The optional phone field never changes the outcome. */
  lemma PhoneIgnored(e: Entry, phone: string)
    ensures Validate(e.(phone := phone)) == Validate(e)
  {
  }

  /** A valid e-mail address is never blank, so a `Sent` outcome implies all four
      required fields were filled in. */
  lemma SentMeansComplete(e: Entry)
    requires Validate(e) == Sent
    ensures !Blank(e.name) && !Blank(e.email) && !Blank(e.firm) && !Blank(e.message)
    ensures IsValidEmail(Trim(e.email))
  {
    EmailCheckMatchesPattern(Trim(e.email));
  }

  function BannerText(r: Outcome): string
  {
    match r
    case MissingRequired => "Please fill in all required fields."
    case InvalidEmail => "Please enter a valid email address."
    case Sent => "Thank you! Your message has been sent. I'll get back to you soon."
  }

  /** The class the banner is given: `error` or `success`. */
  function BannerKind(r: Outcome): string
  {
    if r == Sent then "success" else "error"
  }

  /** The form's inputs and the `#form-message` banner. */
  class Form {
    var name: string
    var email: string
    var firm: string
    var phone: string
    var message: string
    var bannerText: string
    var bannerKind: string
    var bannerHidden: bool

    function Fields(): Entry
      reads this
    {
      Entry(name, email, firm, phone, message)
    }

    /** An empty form whose banner is hidden. */
    constructor ()
      ensures Fields() == Entry("", "", "", "", "")
      ensures bannerHidden
    {
      name, email, firm, phone, message := "", "", "", "", "";
      bannerText, bannerKind, bannerHidden := "", "", true;
    }

    /** `showFormMessage`: replaces the banner's text and class list, which
        drops `hidden`. */
    method ShowMessage(text: string, kind: string)
      modifies this
      ensures bannerText == text && bannerKind == kind && !bannerHidden
      ensures Fields() == old(Fields())
    {
      bannerText := text;
      bannerKind := kind;
      bannerHidden := false;
    }

    /** `form.reset()`: every input back to its empty default value. */
    method Reset()
      modifies this
      ensures Fields() == Entry("", "", "", "", "")
      ensures bannerText == old(bannerText) && bannerKind == old(bannerKind)
      ensures bannerHidden == old(bannerHidden)
    {
      name, email, firm, phone, message := "", "", "", "", "";
    }

    /** The effects of an outcome: its banner is shown, and the form is reset
        only when the submission was sent. */
    method Report(r: Outcome)
      modifies this
      ensures Fields() == if r == Sent then Entry("", "", "", "", "") else old(Fields())
      ensures bannerText == BannerText(r) && bannerKind == BannerKind(r) && !bannerHidden
    {
      ShowMessage(BannerText(r), BannerKind(r));
      if r == Sent {
        Reset();
      }
    }

    /** The submit handler: decide the outcome from the current inputs, then
        report it. */
    method Submit() returns (r: Outcome)
      modifies this
      ensures r == Validate(old(Fields()))
      ensures Fields() == if r == Sent then Entry("", "", "", "", "") else old(Fields())
      ensures bannerText == BannerText(r) && bannerKind == BannerKind(r) && !bannerHidden
    {
      r := Validate(Fields());
      Report(r);
    }

    /** The 5000 ms timer that `showFormMessage` starts, when it fires. */
    method HideMessage()
      modifies this
      ensures bannerHidden
      ensures bannerText == old(bannerText) && bannerKind == old(bannerKind)
      ensures Fields() == old(Fields())
    {
      bannerHidden := true;
    }
  }
}
