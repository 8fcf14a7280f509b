/**
 * Configuration read from the environment: the comma-separated server list,
 * the two credential forms and the identifier derived from a server URL.
 */
module Config {
  import opened Text

  type Environment = map<string, string>

  /** `os.getenv(name, default)`. */
  function GetEnv(env: Environment, name: string, default: string): (v: string)
    ensures name !in env ==> v == default
    ensures name in env ==> v == env[name]
  {
    if name in env then env[name] else default
  }

  const DefaultUrl := "https://hub.weirdhost.xyz"
  const DefaultLoginUrl := "https://hub.weirdhost.xyz/auth/login"

  /** A session token is present (`bool(self.remember_web_cookie)`). */
  predicate HasCookieAuth(cookie: string) {
    cookie != ""
  }

  /** Both halves of the email/password form are present. */
  predicate HasEmailAuth(email: string, password: string) {
    email != "" && password != ""
  }

  /**
   * A credential counts as configured only when its variable is set to a
   * non-empty value: an unset variable reads as `""`, which is falsy, the
   * same as a variable set to the empty string.
   */
  lemma AuthFromEnv(env: Environment)
    ensures HasCookieAuth(GetEnv(env, "REMEMBER_WEB_COOKIE", "")) <==>
      "REMEMBER_WEB_COOKIE" in env && env["REMEMBER_WEB_COOKIE"] != ""
    ensures HasEmailAuth(GetEnv(env, "WEIRDHOST_EMAIL", ""), GetEnv(env, "WEIRDHOST_PASSWORD", "")) <==>
      && "WEIRDHOST_EMAIL" in env && env["WEIRDHOST_EMAIL"] != ""
      && "WEIRDHOST_PASSWORD" in env && env["WEIRDHOST_PASSWORD"] != ""
  {
  }

  predicate IsDigit(c: char) {
    '0' <= c <= '9'
  }

  /** Decimal digits, where a single `_` may separate two digits. */
  predicate DigitGroups(s: string) {
    && |s| > 0
    && forall i | 0 <= i < |s| ::
         IsDigit(s[i]) || (s[i] == '_' && 0 < i < |s| - 1 && IsDigit(s[i - 1]) && IsDigit(s[i + 1]))
  }

  /**
   * The four ASCII separators U+001C to U+001F: `strip()` removes them, but
   * `int()` does not count them as whitespace.
   */
  predicate IsSeparator(c: char) {
    '\U{1C}' <= c <= '\U{1F}'
  }

  /**
   * The strings `int()` accepts in base 10: surrounding whitespace, an
   * optional sign, then digit groups. Any other string makes it raise,
   * including one that holds an ASCII separator anywhere.
   */
  predicate IntLiteral(raw: string) {
    && (forall i | 0 <= i < |raw| :: !IsSeparator(raw[i]))
    && var t := Strip(raw);
       if |t| > 0 && (t[0] == '+' || t[0] == '-') then DigitGroups(t[1..]) else DigitGroups(t)
  }

  /** The default parses; an empty value, or one framed by a separator, makes `int()` raise. */
  lemma IntLiteralCases()
    ensures IntLiteral("100")
    ensures !IntLiteral("")
    ensures !IntLiteral("\U{1C}100") && !IntLiteral("100\U{1F}")
  {
    assert TrimStart("100") == "100" && TrimEnd("100") == "100";
    assert IsSeparator("\U{1C}100"[0]);
    assert IsSeparator("100\U{1F}"[3]);
  }

  /** A configured server URL as the list keeps it: non-empty, stripped, comma-free. */
  ghost predicate CleanEntry(e: string) {
    e != "" && Strip(e) == e && ',' !in e
  }

  /** `[p.strip() for p in pieces if p.strip()]`. */
  function CleanPieces(pieces: seq<string>): (r: seq<string>)
    ensures forall k | 0 <= k < |r| :: r[k] != "" && Strip(r[k]) == r[k]
    ensures |r| <= |pieces|
  {
    if |pieces| == 0 then []
    else
      var t := Strip(pieces[0]);
      StripIdempotent(pieces[0]);
      if t == "" then CleanPieces(pieces[1..]) else [t] + CleanPieces(pieces[1..])
  }

  lemma {:induction false} CleanPiecesKeepsAbsent(pieces: seq<string>, c: char)
    requires forall k | 0 <= k < |pieces| :: c !in pieces[k]
    ensures forall k | 0 <= k < |CleanPieces(pieces)| :: c !in CleanPieces(pieces)[k]
    decreases |pieces|
  {
    if |pieces| > 0 {
      StripKeepsAbsent(pieces[0], c);
      CleanPiecesKeepsAbsent(pieces[1..], c);
    }
  }

  /** Cleaning distributes over concatenation: it keeps the order of the pieces. */
  lemma {:induction false} CleanPiecesAppend(a: seq<string>, b: seq<string>)
    ensures CleanPieces(a + b) == CleanPieces(a) + CleanPieces(b)
    decreases |a|
  {
    if |a| > 0 {
      assert (a + b)[1..] == a[1..] + b;
      CleanPiecesAppend(a[1..], b);
    } else {
      assert a + b == b;
    }
  }

  /** Pieces that are already clean pass through unchanged. */
  lemma {:induction false} CleanPiecesOfClean(pieces: seq<string>)
    requires forall k | 0 <= k < |pieces| :: pieces[k] != "" && Strip(pieces[k]) == pieces[k]
    ensures CleanPieces(pieces) == pieces
    decreases |pieces|
  {
    if |pieces| > 0 {
      CleanPiecesOfClean(pieces[1..]);
      assert [pieces[0]] + pieces[1..] == pieces;
    }
  }

  /**
   * The server list parsed from `WEIRDHOST_SERVER_URLS`: an empty value gives
   * no servers; otherwise the comma-separated pieces, stripped, without the
   * empty ones.
   */
  function ParseServerList(raw: string): (servers: seq<string>)
    ensures raw == "" ==> servers == []
    ensures forall k | 0 <= k < |servers| :: CleanEntry(servers[k])
  {
    if raw == "" then []
    else
      SplitJoin(raw, ',');
      CleanPiecesKeepsAbsent(Split(raw, ','), ',');
      CleanPieces(Split(raw, ','))
  }

  /** The guard on the empty value only short-cuts what cleaning would do anyway. */
  lemma ParseIsCleanedSplit(raw: string)
    ensures ParseServerList(raw) == CleanPieces(Split(raw, ','))
  {
    if raw == "" {
      assert Split(raw, ',') == [""];
      assert Strip("") == "";
    }
  }

  /** Parsing keeps order: the list of `a,b` is the list of `a` followed by the list of `b`. */
  lemma ParseConcat(a: string, b: string)
    ensures ParseServerList(a + "," + b) == ParseServerList(a) + ParseServerList(b)
  {
    ParseIsCleanedSplit(a + "," + b);
    ParseIsCleanedSplit(a);
    ParseIsCleanedSplit(b);
    SplitAppend(a, ',', b);
    CleanPiecesAppend(Split(a, ','), Split(b, ','));
  }

  /** Writing a list of clean URLs comma-separated and parsing it gives the list back. */
  lemma ParseJoinRoundTrip(servers: seq<string>)
    requires forall k | 0 <= k < |servers| :: CleanEntry(servers[k])
    ensures ParseServerList(Join(servers, ',')) == servers
  {
    if |servers| == 0 {
    } else {
      ParseIsCleanedSplit(Join(servers, ','));
      JoinSplit(servers, ',');
      CleanPiecesOfClean(servers);
    }
  }

  /**
   * The display identifier of a server: `url.split('/')[-1]`, or `"unknown"`
   * for an empty URL. It is the suffix after the last `/` and holds no `/`.
   */
  function ServerId(url: string): (id: string)
    ensures url == "" ==> id == "unknown"
    ensures url != "" ==> '/' !in id && |id| <= |url| && url[|url| - |id|..] == id
    ensures url != "" && |id| < |url| ==> url[|url| - |id| - 1] == '/'
    ensures url != "" ==> (id == url <==> '/' !in url)
  {
    if url == "" then "unknown"
    else
      SplitLast(url, '/');
      LastPiece(Split(url, '/'))
  }
}
