/** The two e-mail regular expressions of the site:
      worker (cloudflare-worker/worker.js): ^[a-zA-Z0-9._%+-]+@[a-zA-Z0-9.-]+\.[a-zA-Z]{2,}$
      client (js/main.js):                  ^[a-zA-Z0-9._-]+@[a-zA-Z0-9.-]+\.[a-zA-Z]{2,}$
    They differ only in the local part, so one matcher serves both. The
    matcher locates the first '@' and the last '.'; `EmailShape` is the
    regular expression read as "there is a split of the string into
    local @ domain . tld", and `MatchesIffShape` shows the two agree. */
module EmailPattern {
  import opened JsText

  datatype Dialect = Worker | Client

  predicate LocalChar(d: Dialect, c: char)
  {
    IsAsciiLetter(c) || IsAsciiDigit(c) || c == '.' || c == '_' || c == '-'
    || (d == Worker && (c == '%' || c == '+'))
  }

  predicate DomainChar(c: char)
  {
    IsAsciiLetter(c) || IsAsciiDigit(c) || c == '.' || c == '-'
  }

  predicate LocalRange(s: string, d: Dialect, lo: nat, hi: nat)
    requires lo <= hi <= |s|
  {
    forall i :: lo <= i < hi ==> LocalChar(d, s[i])
  }

  predicate DomainRange(s: string, lo: nat, hi: nat)
    requires lo <= hi <= |s|
  {
    forall i :: lo <= i < hi ==> DomainChar(s[i])
  }

  predicate LetterRange(s: string, lo: nat, hi: nat)
    requires lo <= hi <= |s|
  {
    forall i :: lo <= i < hi ==> IsAsciiLetter(s[i])
  }

  /** `s` splits at `at` and `dot` into a non-empty local part, '@', a
      non-empty domain, '.', and a top-level domain of two or more letters
      reaching the end of the string. */
  ghost predicate SplitAt(s: string, d: Dialect, at: int, dot: int)
  {
    && 0 < at && at + 1 < dot && dot + 3 <= |s|
    && s[at] == '@' && s[dot] == '.'
    && LocalRange(s, d, 0, at)
    && DomainRange(s, at + 1, dot)
    && LetterRange(s, dot + 1, |s|)
  }

  /** The language of the regular expression. */
  ghost predicate EmailShape(s: string, d: Dialect)
  {
    exists at, dot :: SplitAt(s, d, at, dot)
  }

  /** `emailRegex.test(s)`. */
  function Matches(s: string, d: Dialect): bool
  {
    var at := IndexOf(s, '@');
    var dot := LastIndexOf(s, '.');
    && 0 < at && at + 1 < dot && dot + 3 <= |s|
    && LocalRange(s, d, 0, at)
    && DomainRange(s, at + 1, dot)
    && LetterRange(s, dot + 1, |s|)
  }

  /** The matcher accepts exactly the strings of the regular expression's
      language. */
  lemma MatchesIffShape(s: string, d: Dialect)
    ensures Matches(s, d) <==> EmailShape(s, d)
  {
    var at := IndexOf(s, '@');
    var dot := LastIndexOf(s, '.');
    if Matches(s, d) {
      assert SplitAt(s, d, at, dot);
    }
    if EmailShape(s, d) {
      var a, t :| SplitAt(s, d, a, t);
      // No local or domain character is '@', and no letter is '.'.
      assert at == a;
      assert dot == t;
    }
  }

  /** Every address the client accepts, the worker accepts too. */
  lemma ClientStricterThanWorker(s: string)
    ensures Matches(s, Client) ==> Matches(s, Worker)
  {
    if Matches(s, Client) {
      var at := IndexOf(s, '@');
      assert LocalRange(s, Worker, 0, at) by {
        forall i | 0 <= i < at ensures LocalChar(Worker, s[i]) {
          assert LocalChar(Client, s[i]);
        }
      }
    }
  }

  /** ... but not the other way round: '+' (and '%') in the local part. */
  lemma PlusOnlyAcceptedByWorker()
    ensures Matches("+@a.io", Worker)
    ensures !Matches("+@a.io", Client)
  {
    var s := "+@a.io";
    IndexOfAt(s, '@', 1);
    LastIndexOfAt(s, '.', 3);
    assert LocalChar(Worker, s[0]) && !LocalChar(Client, s[0]);
    assert DomainChar(s[2]);
    assert IsAsciiLetter(s[4]) && IsAsciiLetter(s[5]);
  }
}
