/**
  The URL check that the create endpoint applies to the `url` field of the
  request body: the value must be a non-empty string matched by
  `^https?://[^\s$.?#].[^\s]*$`.
 */
module Url {
  import opened Wrappers
  import opened CharClasses
  import opened Regex

  /** The characters `[^\s$.?#]` excludes besides whitespace. */
  const HostStartExcluded: seq<ClassItem> := [Space, Char('$'), Char('.'), Char('?'), Char('#')]

  /** What follows the scheme: `[^\s$.?#]`, then `.`, then `[^\s]*`. */
  const AfterSchemePattern: seq<Term> :=
    [One(NoneOf(HostStartExcluded)), One(Dot), Many(NoneOf([Space]))]

  /** The pattern `^https?://[^\s$.?#].[^\s]*$`. */
  const UrlPattern: seq<Term> :=
    Literal("http") + [Optional(Lit('s'))] + Literal("://") + AfterSchemePattern

  /** The first character after the scheme: no whitespace and none of `$ . ? #`. */
  predicate HostStart(c: char) {
    !IsWs(c) && c != '$' && c != '.' && c != '?' && c != '#'
  }

  /** What may follow the scheme: a host-start character, one character that
      is not a line terminator (a space is allowed), then no whitespace. */
  predicate AfterScheme(t: string) {
    && |t| >= 2
    && HostStart(t[0])
    && !IsLineTerm(t[1])
    && forall i | 2 <= i < |t| :: !IsWs(t[i])
  }

  /** The strings the pattern accepts, described directly. */
  predicate UrlForm(s: string) {
    || (|s| >= 7 && s[..7] == "http://" && AfterScheme(s[7..]))
    || (|s| >= 8 && s[..8] == "https://" && AfterScheme(s[8..]))
  }

  lemma NotSpaceClass(c: char)
    ensures Accepts(NoneOf([Space]), c) <==> !IsWs(c)
  {
    assert InItem([Space][0], c) <==> IsWs(c);
  }

  lemma HostStartClass(c: char)
    ensures Accepts(NoneOf(HostStartExcluded), c) <==> HostStart(c)
  {
    var items := HostStartExcluded;
    assert InItem(items[0], c) <==> IsWs(c);
    assert InItem(items[1], c) <==> c == '$';
    assert InItem(items[2], c) <==> c == '.';
    assert InItem(items[3], c) <==> c == '?';
    assert InItem(items[4], c) <==> c == '#';
  }

  lemma AfterSchemePatternMeaning(t: string)
    ensures Matches(AfterSchemePattern, t) <==> AfterScheme(t)
  {
    var p := AfterSchemePattern;
    assert p[1..] == [One(Dot), Many(NoneOf([Space]))];
    assert p[1..][1..] == [Many(NoneOf([Space]))];
    if |t| >= 2 {
      HostStartClass(t[0]);
      forall c { NotSpaceClass(c); }
      ManyAlone(NoneOf([Space]), t[2..]);
      assert t[1..][1..] == t[2..];
      assert forall i | 2 <= i < |t| :: t[i] == t[2..][i - 2];
    }
  }

  /** The pattern matches exactly the strings `UrlForm` describes. */
  lemma UrlPatternMeaning(s: string)
    ensures Matches(UrlPattern, s) <==> UrlForm(s)
  {
    var tail := Literal("://") + AfterSchemePattern;
    var rest := [Optional(Lit('s'))] + tail;
    assert UrlPattern == Literal("http") + rest;
    LiteralThen("http", rest, s);
    if |s| >= 4 && s[..4] == "http" {
      var r := s[4..];
      assert rest[0] == Optional(Lit('s'));
      assert rest[1..] == tail;
      LiteralThen("://", AfterSchemePattern, r);
      if |r| >= 3 {
        AfterSchemePatternMeaning(s[7..]);
        assert r[3..] == s[7..];
        assert s[..7] == s[..4] + r[..3];
        assert s[..7][4..] == r[..3];
        assert "http://"[4..] == "://";
        assert r[..3] == "://" <==> s[..7] == "http://";
      }
      if |r| >= 1 {
        LiteralThen("://", AfterSchemePattern, r[1..]);
        if |s| >= 8 {
          AfterSchemePatternMeaning(s[8..]);
          assert r[1..][3..] == s[8..];
          assert s[..8] == s[..4] + [r[0]] + r[1..][..3];
          assert s[..8][5..] == r[1..][..3] && s[..8][4] == r[0];
          assert "https://"[5..] == "://";
          assert (r[0] == 's' && r[1..][..3] == "://") <==> s[..8] == "https://";
        }
      }
    }
  }

  /** The create endpoint's guard: the field must be present, a string,
      truthy (non-empty) and matched by the pattern. */
  function IsValidUrl(url: Option<string>): (ok: bool)
    ensures ok <==> url.Some? && UrlForm(url.value)
  {
    match url
    case None => false
    case Some(u) =>
      UrlPatternMeaning(u);
      u != "" && Matches(UrlPattern, u)
  }

  /** Every accepted URL is non-empty, hence truthy once stored. */
  lemma UrlFormNonEmpty(s: string)
    requires UrlForm(s)
    ensures |s| >= 9
  {
  }

  /** The `.` after the host start admits a space, so an accepted URL may
      contain whitespace: "http://a b" passes the check. */
  lemma SpaceAfterHostStartAccepted()
    ensures IsValidUrl(Some("http://a b"))
    ensures ' ' in "http://a b"
  {
    var s := "http://a b";
    assert s[..7] == "http://";
    assert s[7..] == "a b";
  }
}
