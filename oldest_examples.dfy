/**
 * The URLs `test.py` feeds to the oldest `parse_url`, with the results it
 * expects, derived from the current parser's through `OldestAgreesCurrent`;
 * and the input on which the legacy and current parsers part.
 */
module OldestExamples {
  import opened Wrappers
  import opened PyStr
  import opened UrlParse
  import UrlExamples
  import opened LegacyParse
  import opened OldestParse

  lemma OldestBareHostNoScheme(url: string)
    requires url == "example.com"
    ensures ParseOldest(url) == Ok((Http, "example.com", "/", 80))
  {
    UrlExamples.PlainAvoids(url);
    UrlExamples.BareHostNoScheme(url);
    OldestFrom(url, ParseUrl(url).value);
  }

  lemma OldestBareHostHttp(url: string)
    requires url == "http://example.com"
    ensures ParseOldest(url) == Ok((Http, "example.com", "/", 80))
  {
    UrlExamples.PlainAvoids(url);
    UrlExamples.BareHostHttp(url);
    OldestFrom(url, ParseUrl(url).value);
  }

  lemma OldestBareHostHttps(url: string)
    requires url == "https://example.com"
    ensures ParseOldest(url) == Ok((Https, "example.com", "/", 443))
  {
    UrlExamples.PlainAvoids(url);
    UrlExamples.BareHostHttps(url);
    OldestFrom(url, ParseUrl(url).value);
  }

  lemma OldestRootPathNoScheme(url: string)
    requires url == "example.com/"
    ensures ParseOldest(url) == Ok((Http, "example.com", "/", 80))
  {
    UrlExamples.PlainAvoids(url);
    UrlExamples.RootPathNoScheme(url);
    OldestFrom(url, ParseUrl(url).value);
  }

  lemma OldestRootPathHttp(url: string)
    requires url == "http://example.com/"
    ensures ParseOldest(url) == Ok((Http, "example.com", "/", 80))
  {
    UrlExamples.PlainAvoids(url);
    UrlExamples.RootPathHttp(url);
    OldestFrom(url, ParseUrl(url).value);
  }

  lemma OldestRootPathHttps(url: string)
    requires url == "https://example.com/"
    ensures ParseOldest(url) == Ok((Https, "example.com", "/", 443))
  {
    UrlExamples.PlainAvoids(url);
    UrlExamples.RootPathHttps(url);
    OldestFrom(url, ParseUrl(url).value);
  }

  lemma OldestLongerPathNoScheme(url: string)
    requires url == "example.com/some/path"
    ensures ParseOldest(url) == Ok((Http, "example.com", "/some/path", 80))
  {
    UrlExamples.PlainAvoids(url);
    UrlExamples.LongerPathNoScheme(url);
    OldestFrom(url, ParseUrl(url).value);
  }

  lemma OldestLongerPathHttp(url: string)
    requires url == "http://example.com/some/path"
    ensures ParseOldest(url) == Ok((Http, "example.com", "/some/path", 80))
  {
    UrlExamples.PlainAvoids(url);
    UrlExamples.LongerPathHttp(url);
    OldestFrom(url, ParseUrl(url).value);
  }

  lemma OldestLongerPathHttps(url: string)
    requires url == "https://example.com/some/path"
    ensures ParseOldest(url) == Ok((Https, "example.com", "/some/path", 443))
  {
    UrlExamples.PlainAvoids(url);
    UrlExamples.LongerPathHttps(url);
    OldestFrom(url, ParseUrl(url).value);
  }

  lemma OldestExplicitPortNoScheme(url: string)
    requires url == "example.com:8080/some/path"
    ensures ParseOldest(url) == Ok((Http, "example.com", "/some/path", 8080))
  {
    UrlExamples.PlainAvoids(url);
    UrlExamples.ExplicitPortNoScheme(url);
    OldestFrom(url, ParseUrl(url).value);
  }

  lemma OldestExplicitPortHttp(url: string)
    requires url == "http://example.com:8080/some/path"
    ensures ParseOldest(url) == Ok((Http, "example.com", "/some/path", 8080))
  {
    var c := ParsedUrl(Http, "example.com", "/some/path", 8080, "", "", "", "");
    assert '@' !in url && '[' !in url && '?' !in url && '#' !in url && ParseUrl(url) == Ok(c) by {
      UrlExamples.PlainAvoids(url);
      UrlExamples.ExplicitPortHttp(url);
    }
    OldestFrom(url, c);
  }

  lemma OldestExplicitPortHttps(url: string)
    requires url == "https://example.com:8080/some/path"
    ensures ParseOldest(url) == Ok((Https, "example.com", "/some/path", 8080))
  {
    var c := ParsedUrl(Https, "example.com", "/some/path", 8080, "", "", "", "");
    assert '@' !in url && '[' !in url && '?' !in url && '#' !in url && ParseUrl(url) == Ok(c) by {
      UrlExamples.PlainAvoids(url);
      UrlExamples.ExplicitPortHttps(url);
    }
    OldestFrom(url, c);
  }

  lemma OldestInvalidSchemeOnly(url: string)
    requires url == "https://"
    ensures ParseOldest(url) == Err(InvalidURL)
  {
    UrlExamples.PlainAvoids(url);
    UrlExamples.InvalidSchemeOnly(url);
    OldestFails(url, ParseUrl(url).error);
  }

  lemma OldestInvalidSlashOnly(url: string)
    requires url == "/"
    ensures ParseOldest(url) == Err(InvalidURL)
  {
    UrlExamples.PlainAvoids(url);
    UrlExamples.InvalidSlashOnly(url);
    OldestFails(url, ParseUrl(url).error);
  }

  lemma OldestInvalidEmpty(url: string)
    requires url == ""
    ensures ParseOldest(url) == Err(InvalidURL)
  {
    UrlExamples.PlainAvoids(url);
    UrlExamples.InvalidEmpty(url);
    OldestFails(url, ParseUrl(url).error);
  }

  lemma OldestInvalidEmptyPort(url: string)
    requires url == "example.com:"
    ensures ParseOldest(url) == Err(InvalidURL)
  {
    UrlExamples.PlainAvoids(url);
    UrlExamples.InvalidEmptyPort(url);
    OldestFails(url, ParseUrl(url).error);
  }

  lemma OldestInvalidEmptyName(url: string)
    requires url == ":example.com"
    ensures ParseOldest(url) == Err(InvalidURL)
  {
    UrlExamples.PlainAvoids(url);
    UrlExamples.InvalidEmptyName(url);
    OldestFails(url, ParseUrl(url).error);
  }

  lemma OldestInvalidSchemeEmptyPort(url: string)
    requires url == "http://example.com:"
    ensures ParseOldest(url) == Err(InvalidURL)
  {
    UrlExamples.PlainAvoids(url);
    UrlExamples.InvalidSchemeEmptyPort(url);
    OldestFails(url, ParseUrl(url).error);
  }

  lemma OldestInvalidSchemeEmptyName(url: string)
    requires url == "http://:example.com"
    ensures ParseOldest(url) == Err(InvalidURL)
  {
    UrlExamples.PlainAvoids(url);
    UrlExamples.InvalidSchemeEmptyName(url);
    OldestFails(url, ParseUrl(url).error);
  }

  /** An unknown scheme is a `ValueError`, not `InvalidURL`. */
  lemma OldestUnknownScheme(url: string)
    requires url == "htps://example.com/"
    ensures ParseOldest(url) == Err(ValueError)
  {
    UrlExamples.PlainAvoids(url);
    UrlExamples.UnknownScheme(url);
    OldestFails(url, ParseUrl(url).error);
  }

  /** An accepted URL of the current parser, as the oldest parser reads it. */
  lemma OldestFrom(url: string, c: ParsedUrl)
    requires '@' !in url && '[' !in url && '?' !in url && '#' !in url && ParseUrl(url) == Ok(c)
    ensures ParseOldest(url) == Ok((c.protocol, c.host, c.path, c.port))
  {
    OldestAgreesCurrent(url);
  }

  /** A URL the current parser rejects, rejected by the oldest with the same error. */
  lemma OldestFails(url: string, e: UrlError)
    requires '@' !in url && '[' !in url && '?' !in url && '#' !in url && ParseUrl(url) == Err(e)
    ensures ParseOldest(url) == Err(e)
  {
    OldestAgreesCurrent(url);
  }

  /** `@example.com`: the legacy parser reads an empty username, the current
      one raises `InvalidURL`. */
  lemma LegacyEmptyUsername(url: string)
    requires url == "@example.com"
    ensures ParseLegacy(url) == Ok(LegacyUrl(Http, "example.com", "/", 80, "", "", ""))
  {
    NoSchemeGiven(url);
    EmptyUsernameAccepted(Http, url, "example.com");
  }

  lemma CurrentEmptyUsername(url: string)
    requires url == "@example.com"
    ensures ParseUrl(url) == Err(InvalidURL)
  {
    assert url == "@" + "example.com";
    EmptyUsernameAccepted(Http, url, "example.com");
    NoSchemeGiven(url);
    ParseUrlSteps(url, Http, url);
  }

  lemma NoSchemeGiven(url: string)
    requires url == "@example.com"
    ensures SplitScheme(Strip(url)) == Ok((Http, url))
  {
    assert NoSpace(url) && ':' !in url;
    StripNoSpace(url);
    FindAbsent(url, "://");
  }
}
