/** The email check of the handler: Python's `re.match` of the pattern
    `[^@]+@gmail\.com$` against a str, written as explicit predicates over
    `seq<char>`.

    `re.match` anchors the match at position 0; `[^@]+` consumes one or more
    characters other than '@' (a newline included); the literal `@gmail.com`
    is case-sensitive; and `$` without MULTILINE matches at the end of the
    string or just before a single final newline. */
module Gmail {

  /** The literal part of the pattern. */
  const Domain: string := "@gmail.com"

  /** Index of the first '@' in `s`, or `|s|` when there is none. */
  function FirstAt(s: string): (k: nat)
    ensures k <= |s|
    ensures forall j :: 0 <= j < k ==> s[j] != '@'
    ensures k < |s| ==> s[k] == '@'
  {
    if |s| == 0 || s[0] == '@' then 0 else 1 + FirstAt(s[1..])
  }

  /** The first '@' after an '@'-free prefix sits right after that prefix. */
  lemma FirstAtAfterPrefix(p: string, rest: string)
    requires '@' !in p
    requires |rest| > 0 && rest[0] == '@'
    ensures FirstAt(p + rest) == |p|
  {
    var s := p + rest;
    assert s[|p|] == '@';
  }

  /** Where Python's `$` (no MULTILINE flag) can match in `s`. */
  predicate EndAnchor(s: string, e: nat)
  {
    e == |s| || (e + 1 == |s| && s[e] == '\n')
  }

  /** The match attempted at position 0 succeeds with `[^@]+` consuming the
      first `n` characters. */
  predicate MatchWith(s: string, n: nat)
  {
    && 1 <= n
    && n + |Domain| <= |s|
    && (forall j :: 0 <= j < n ==> s[j] != '@')
    && s[n..n + |Domain|] == Domain
    && EndAnchor(s, n + |Domain|)
  }

  /** `re.match(r'[^@]+@gmail\.com$', s)` returns a match object: some length
      of the `[^@]+` run lets the rest of the pattern match. */
  ghost predicate RegexMatch(s: string)
  {
    exists n: nat :: MatchWith(s, n)
  }

  /** `re.search` of the same pattern, which may start at any position; the
      handler does NOT use this, it is here to show what start anchoring
      excludes. */
  ghost predicate SearchMatch(s: string)
  {
    exists i :: 0 <= i <= |s| && RegexMatch(s[i..])
  }

  /** The decision the handler makes: the run of non-'@' characters before the
      first '@' is non-empty, and what follows it is the domain, optionally
      followed by one newline. */
  predicate IsGmail(s: string)
  {
    var k := FirstAt(s);
    0 < k && (s[k..] == Domain || s[k..] == Domain + "\n")
  }

  /** The shape of an accepted address `p + "@gmail.com" + t`. */
  predicate GmailShape(p: string, t: string)
  {
    |p| > 0 && '@' !in p && (t == "" || t == "\n")
  }

  /** IsGmail decides exactly the regex match, in both directions. */
  lemma IsGmailIsRegexMatch(s: string)
    ensures IsGmail(s) <==> RegexMatch(s)
  {
    var k := FirstAt(s);
    if IsGmail(s) {
      assert s[k..k + |Domain|] == s[k..][..|Domain|];
      assert MatchWith(s, k);
    }
    if RegexMatch(s) {
      var n: nat :| MatchWith(s, n);
      assert s[n] == s[n..n + |Domain|][0] == '@';
      assert k == n;
      if n + |Domain| == |s| {
        assert s[k..] == s[k..k + |Domain|];
      } else {
        assert s[k..] == s[k..k + |Domain|] + [s[|s| - 1]];
      }
    }
  }

  /** A str is accepted iff it is a non-empty '@'-free prefix followed by
      "@gmail.com" and then nothing or a single newline. */
  lemma EmailAcceptance(s: string)
    ensures IsGmail(s) <==> exists p, t :: GmailShape(p, t) && s == p + Domain + t
  {
    var k := FirstAt(s);
    if IsGmail(s) {
      var p, t := s[..k], s[k + |Domain|..];
      assert '@' !in p by {
        forall c | c in p
          ensures c != '@'
        {
          var j :| 0 <= j < |p| && p[j] == c;
          assert s[j] == c;
        }
      }
      assert s[k..] == Domain + t;
      assert s == p + s[k..];
      assert GmailShape(p, t) && s == p + Domain + t;
    }
    if exists p, t :: GmailShape(p, t) && s == p + Domain + t {
      var p, t :| GmailShape(p, t) && s == p + Domain + t;
      FirstAtAfterPrefix(p, Domain + t);
      assert s == p + (Domain + t);
      assert s[k..] == Domain + t;
    }
  }

  /** For a str whose first '@' follows the prefix `p`, the verdict depends
      only on `p` being non-empty and on what follows that '@'. */
  lemma SplitAtFirstAt(p: string, rest: string)
    requires '@' !in p
    ensures IsGmail(p + "@" + rest) <==> |p| > 0 && (rest == "gmail.com" || rest == "gmail.com\n")
  {
    var s := p + "@" + rest;
    FirstAtAfterPrefix(p, "@" + rest);
    assert s == p + ("@" + rest);
    assert s[|p|..] == "@" + rest;
    assert Domain == "@" + "gmail.com";
    assert Domain + "\n" == "@" + "gmail.com\n";
    assert rest == ("@" + rest)[1..];
    assert "gmail.com" == Domain[1..];
    assert "gmail.com\n" == (Domain + "\n")[1..];
  }

  /** Addresses the pattern accepts: a plain address, and one followed by a
      single trailing newline, which `$` lets through. */
  lemma EmailAcceptedExamples()
    ensures IsGmail("user@gmail.com")
    ensures IsGmail("user@gmail.com\n")
  {
    SplitAtFirstAt("user", "gmail.com");
    assert "user" + "@" + "gmail.com" == "user@gmail.com";
    SplitAtFirstAt("user", "gmail.com\n");
    assert "user" + "@" + "gmail.com\n" == "user@gmail.com\n";
  }

  /** "@gmail.com" has an empty local part. */
  lemma EmptyLocalPartRejected()
    ensures !IsGmail("@gmail.com")
  {
    SplitAtFirstAt("", "gmail.com");
    assert "" + "@" + "gmail.com" == "@gmail.com";
  }

  /** The domain literal is case-sensitive. */
  lemma UpperCaseDomainRejected()
    ensures !IsGmail("user@GMAIL.com")
  {
    SplitAtFirstAt("user", "GMAIL.com");
    assert "user" + "@" + "GMAIL.com" == "user@GMAIL.com";
    assert "GMAIL.com"[0] != "gmail.com"[0];
  }

  /** Another provider is rejected. */
  lemma OtherProviderRejected()
    ensures !IsGmail("user@yahoo.com")
  {
    SplitAtFirstAt("user", "yahoo.com");
    assert "user" + "@" + "yahoo.com" == "user@yahoo.com";
    assert "yahoo.com"[0] != "gmail.com"[0];
  }

  /** The domain must end the string: a longer domain is rejected. */
  lemma LongerDomainRejected()
    ensures !IsGmail("user@gmail.com.au")
  {
    SplitAtFirstAt("user", "gmail.com.au");
    assert "user" + "@" + "gmail.com.au" == "user@gmail.com.au";
  }

  /** `$` allows one final newline, not two. */
  lemma TwoNewlinesRejected()
    ensures !IsGmail("user@gmail.com\n\n")
  {
    SplitAtFirstAt("user", "gmail.com\n\n");
    assert "user" + "@" + "gmail.com\n\n" == "user@gmail.com\n\n";
  }

  /** Start anchoring matters: "a@b@gmail.com" contains a match of the pattern
      (starting at "b"), but the handler rejects it. */
  lemma StartAnchoring()
    ensures !IsGmail("a@b@gmail.com")
    ensures SearchMatch("a@b@gmail.com")
  {
    var s := "a@b@gmail.com";
    FirstAtAfterPrefix("a", "@b@gmail.com");
    var t := s[2..];
    assert t == "b@gmail.com";
    assert t[1..11] == Domain;
    assert MatchWith(t, 1);
    assert RegexMatch(s[2..]);
  }
}
