/**
 * A URL with basic-auth credentials put in its authority: the user
 * information of section 3.2.1 of RFC 3986, `<user>:<password>@`, each
 * credential percent-encoded as in section 2.1 of RFC 3986 with no character
 * kept but the unreserved ones, over the UTF-8 bytes of the credential.
 */
module Url {
  import opened Common

  type Byte = b: nat | b < 256

  // ---------------------------------------------------------------------------
  // UTF-8 and percent-encoding
  // ---------------------------------------------------------------------------

  /** The UTF-8 bytes of one character. */
  function Utf8Char(c: char): (r: seq<Byte>)
    ensures 1 <= |r| <= 4
    ensures (c as int) < 0x80 <==> |r| == 1
    ensures (c as int) < 0x80 ==> r == [c as int]
    ensures |r| > 1 ==> forall i :: 0 <= i < |r| ==> r[i] >= 0x80
  {
    var n := c as int;
    if n < 0x80 then [n]
    else if n < 0x800 then [0xC0 + n / 64, 0x80 + n % 64]
    else if n < 0x1_0000 then [0xE0 + n / 4096, 0x80 + (n / 64) % 64, 0x80 + n % 64]
    else [0xF0 + n / 262144, 0x80 + (n / 4096) % 64, 0x80 + (n / 64) % 64, 0x80 + n % 64]
  }

  /** `s.encode("utf-8")`. */
  function Utf8(s: string): (r: seq<Byte>)
    ensures |r| >= |s|
  {
    if s == [] then [] else Utf8Char(s[0]) + Utf8(s[1..])
  }

  /** The unreserved bytes: ASCII letters, digits and `_ . - ~`. */
  predicate Unreserved(b: int) {
    ('A' as int <= b <= 'Z' as int) || ('a' as int <= b <= 'z' as int) || ('0' as int <= b <= '9' as int) ||
    b == '_' as int || b == '.' as int || b == '-' as int || b == '~' as int
  }

  function HexDigit(d: nat): (c: char)
    requires d < 16
  {
    "0123456789ABCDEF"[d]
  }

  predicate IsHexDigit(c: char) {
    '0' <= c <= '9' || 'A' <= c <= 'F' || 'a' <= c <= 'f'
  }

  function HexValue(c: char): (d: nat)
    requires IsHexDigit(c)
    ensures d < 16
  {
    if '0' <= c <= '9' then c as int - '0' as int
    else if 'A' <= c <= 'F' then c as int - 'A' as int + 10
    else c as int - 'a' as int + 10
  }

  lemma HexValueOfHexDigit(d: nat)
    requires d < 16
    ensures IsHexDigit(HexDigit(d)) && HexValue(HexDigit(d)) == d
  {
  }

  /** One byte: itself when unreserved, else `%` and two upper-case hexadecimal digits. */
  function QuoteByte(b: Byte): (r: string)
    ensures Unreserved(b) ==> r == [b as char]
    ensures !Unreserved(b) ==> |r| == 3 && r[0] == '%'
  {
    if Unreserved(b) then [b as char] else ['%', HexDigit(b / 16), HexDigit(b % 16)]
  }

  function QuoteBytes(bs: seq<Byte>): (r: string)
  {
    if bs == [] then "" else QuoteByte(bs[0]) + QuoteBytes(bs[1..])
  }

  /** `urllib.parse.quote(s, safe='')`. */
  function Quote(s: string): string {
    QuoteBytes(Utf8(s))
  }

  /** A character an encoded credential may hold: an unreserved one, `%` or an upper-case hexadecimal digit. */
  predicate EncodedChar(c: char) {
    Unreserved(c as int) || c == '%'
  }

  /** Every character of an encoded text is unreserved or `%`, so no `:`, `@` or `/` survives. */
  lemma {:induction false} QuoteBytesChars(bs: seq<Byte>)
    ensures forall i :: 0 <= i < |QuoteBytes(bs)| ==> EncodedChar(QuoteBytes(bs)[i])
  {
    if bs != [] {
      QuoteBytesChars(bs[1..]);
      var h, t := QuoteByte(bs[0]), QuoteBytes(bs[1..]);
      forall i | 0 <= i < |h + t| ensures EncodedChar((h + t)[i]) {
        if i >= |h| {
          assert (h + t)[i] == t[i - |h|];
        }
      }
    }
  }

  /** Percent-decoding: `%` and two hexadecimal digits read as one byte, any other character as itself. */
  function Unquote(t: string): (r: Option<seq<Byte>>)
  {
    if t == [] then Some([])
    else if t[0] == '%' && |t| >= 3 && IsHexDigit(t[1]) && IsHexDigit(t[2]) then
      var rest := Unquote(t[3..]);
      if rest.Some? then Some([HexValue(t[1]) * 16 + HexValue(t[2])] + rest.value) else None
    else if t[0] as int < 256 then
      var rest := Unquote(t[1..]);
      if rest.Some? then Some([t[0] as int] + rest.value) else None
    else None
  }

  /** Percent-decoding undoes the encoding: the credential's UTF-8 bytes come back. */
  lemma {:induction false} UnquoteQuoteBytes(bs: seq<Byte>)
    ensures Unquote(QuoteBytes(bs)) == Some(bs)
  {
    if bs != [] {
      UnquoteQuoteBytes(bs[1..]);
      UnquoteQuoteByte(bs[0], QuoteBytes(bs[1..]));
      assert bs == [bs[0]] + bs[1..];
    }
  }

  /** Decoding reads one encoded byte back and goes on with the rest. */
  lemma UnquoteQuoteByte(b: Byte, t: string)
    ensures Unquote(QuoteByte(b) + t) == if Unquote(t).Some? then Some([b] + Unquote(t).value) else None
  {
    if Unreserved(b) {
      UnquoteUnreserved(b, t);
    } else {
      UnquoteEscaped(b, t);
    }
  }

  lemma UnquoteUnreserved(b: Byte, t: string)
    requires Unreserved(b)
    ensures Unquote([b as char] + t) == if Unquote(t).Some? then Some([b] + Unquote(t).value) else None
  {
    var c := b as char;
    assert ([c] + t)[0] == c && c != '%';
    assert ([c] + t)[1..] == t;
  }

  lemma UnquoteEscaped(b: Byte, t: string)
    ensures Unquote(['%', HexDigit(b / 16), HexDigit(b % 16)] + t) ==
      if Unquote(t).Some? then Some([b] + Unquote(t).value) else None
  {
    var h := ['%', HexDigit(b / 16), HexDigit(b % 16)];
    assert (h + t)[3..] == t;
    HexValueOfHexDigit(b / 16);
    HexValueOfHexDigit(b % 16);
    assert (h + t)[0] == '%' && (h + t)[1] == HexDigit(b / 16) && (h + t)[2] == HexDigit(b % 16);
    assert (b / 16) * 16 + b % 16 == b;
  }

  lemma UnquoteQuote(s: string)
    ensures Unquote(Quote(s)) == Some(Utf8(s))
  {
    UnquoteQuoteBytes(Utf8(s));
  }

  /** Text made only of unreserved ASCII characters is its own encoding. */
  lemma {:induction false} QuoteKeepsUnreserved(s: string)
    requires forall i :: 0 <= i < |s| ==> Unreserved(s[i] as int)
    ensures Quote(s) == s
  {
    if s != [] {
      QuoteKeepsUnreserved(s[1..]);
      assert Utf8(s) == [s[0] as int] + Utf8(s[1..]);
      assert ([s[0] as int] + Utf8(s[1..]))[1..] == Utf8(s[1..]);
    }
  }

  // ---------------------------------------------------------------------------
  // Partition
  // ---------------------------------------------------------------------------

  /** `s.partition(sep)`: before the first occurrence, the separator, after it; `(s, "", "")` without one. */
  function Partition(s: string, sep: string): (r: (string, string, string))
    ensures r.0 + r.1 + r.2 == s
    ensures r.1 == sep ==> forall j :: 0 <= j < |r.0| ==> !OccursAt(s, sep, j)
  {
    var k := IndexFrom(s, sep, 0);
    if k < 0 then (s, "", "")
    else
      assert s == s[..k] + sep + s[k + |sep|..];
      (s[..k], sep, s[k + |sep|..])
  }

  // ---------------------------------------------------------------------------
  // The authorized URL
  // ---------------------------------------------------------------------------

  const SchemeError: string := "Expected the url to start with http:// or https://"

  /** A credential's part of the user information: empty when missing or empty, else encoded. */
  function Component(credential: Option<string>): (r: string)
    ensures credential.None? || credential.value == "" ==> r == ""
    ensures credential.Some? && credential.value != "" ==> r == Quote(credential.value)
  {
    if credential.Some? && credential.value != "" then Quote(credential.value) else ""
  }

  /** `<user>:<password>@`. */
  function UserInfo(username: Option<string>, password: Option<string>): string {
    Component(username) + ":" + Component(password) + "@"
  }

  predicate IsHttp(url: string) {
    StartsWith(url, "http://") || StartsWith(url, "https://")
  }

  /**
   * `get_authorized_url`: the URL itself when neither credential is given;
   * otherwise it must be an http or https URL, and the user information goes
   * right after the first `://`.
   */
  function GetAuthorizedUrl(url: string, username: Option<string>, password: Option<string>): (r: Result<string>)
    ensures username.None? && password.None? ==> r == Ok(url)
    ensures r.Err? <==> (username.Some? || password.Some?) && !IsHttp(url)
    ensures r.Err? ==> r.error == SchemeError
    ensures r.Ok? && (username.Some? || password.Some?) && StartsWith(url, "http://") ==>
      r.value == "http://" + UserInfo(username, password) + url[7..]
    ensures r.Ok? && (username.Some? || password.Some?) && StartsWith(url, "https://") ==>
      r.value == "https://" + UserInfo(username, password) + url[8..]
  {
    if username.None? && password.None? then Ok(url)
    else if !IsHttp(url) then Err(SchemeError)
    else
      var parts := Partition(url, "://");
      SchemeSeparator(url);
      Ok(parts.0 + parts.1 + UserInfo(username, password) + parts.2)
  }

  /** In an http or https URL the first `://` ends the scheme. */
  lemma SchemeSeparator(url: string)
    requires IsHttp(url)
    ensures StartsWith(url, "http://") ==> Partition(url, "://") == ("http", "://", url[7..])
    ensures StartsWith(url, "https://") ==> Partition(url, "://") == ("https", "://", url[8..])
  {
    SchemeLiterals();
    if StartsWith(url, "https://") {
      assert !StartsWith(url, "http://") by {
        assert url[4] == 's';
      }
      FirstSeparator(url, "https");
    } else {
      FirstSeparator(url, "http");
    }
  }

  /** A URL starting with a scheme free of `:` and then `://` is partitioned right after the scheme. */
  lemma FirstSeparator(url: string, scheme: string)
    requires StartsWith(url, scheme + "://")
    requires forall i :: 0 <= i < |scheme| ==> scheme[i] != ':'
    ensures Partition(url, "://") == (scheme, "://", url[|scheme| + 3..])
  {
    var n := |scheme|;
    assert url[..n + 3] == scheme + "://";
    assert url[n..n + 3] == url[..n + 3][n..];
    assert OccursAt(url, "://", n);
    forall j | 0 <= j < n ensures !OccursAt(url, "://", j) {
      assert url[j] == url[..n + 3][j] == scheme[j];
      if j + 3 <= |url| {
        assert url[j..j + 3][0] == url[j];
      }
    }
    assert IndexFrom(url, "://", 0) == n;
    assert url[..n] == url[..n + 3][..n] == scheme;
  }

  predicate IsColon(c: char) { c == ':' }

  predicate IsAt(c: char) { c == '@' }

  /** Bytes of a credential as the authorized URL carries them: none when it is missing or empty. */
  function CredentialBytes(credential: Option<string>): seq<Byte> {
    if credential.Some? && credential.value != "" then Utf8(credential.value) else []
  }

  /**
   * The credentials read back from an authorized URL: after the first `://`,
   * the text up to the first `:` decoded as the username and the text from
   * there up to the first `@` as the password.
   */
  function ReadCredentials(authorized: string): (r: Option<(seq<Byte>, seq<Byte>)>)
  {
    var parts := Partition(authorized, "://");
    if parts.1 == "" then None else ReadUserInfoText(parts.2)
  }

  /** The user and password of the text after `://`: up to the first `:`, then up to the first `@`, each decoded. */
  function ReadUserInfoText(info: string): (r: Option<(seq<Byte>, seq<Byte>)>)
  {
    var colon, at := FirstIndex(info, IsColon), FirstIndex(info, IsAt);
    if colon < 0 || at <= colon then None
    else
      var user, password := Unquote(info[..colon]), Unquote(info[colon + 1..at]);
      if user.Some? && password.Some? then Some((user.value, password.value)) else None
  }

  /**
   * Reading the credentials back from the authorized URL gives each
   * credential's UTF-8 bytes, since encoding leaves neither `:` nor `@` in a
   * credential; so the user information is exactly the one of the given
   * credentials.
   */
  lemma CredentialsReadBack(url: string, username: Option<string>, password: Option<string>)
    requires (username.Some? || password.Some?) && IsHttp(url)
    ensures GetAuthorizedUrl(url, username, password).Ok?
    ensures ReadCredentials(GetAuthorizedUrl(url, username, password).value) ==
      Some((CredentialBytes(username), CredentialBytes(password)))
  {
    var u, p := Component(username), Component(password);
    var scheme := if StartsWith(url, "http://") then "http" else "https";
    AuthorizedUrl(url, scheme, username, password);
    ComponentChars(username);
    ComponentChars(password);
    ComponentReadsBack(username);
    ComponentReadsBack(password);
    ReadUserInfo(scheme, u, p, url[|scheme| + 3..]);
  }

  /** A credential's part of the user information decodes to its bytes. */
  lemma ComponentReadsBack(credential: Option<string>)
    ensures Unquote(Component(credential)) == Some(CredentialBytes(credential))
  {
    if credential.Some? && credential.value != "" {
      UnquoteQuote(credential.value);
    }
  }

  /** The user information after the scheme's `://` is read back part by part. */
  lemma ReadUserInfo(scheme: string, u: string, p: string, rest: string)
    requires forall i :: 0 <= i < |scheme| ==> scheme[i] != ':'
    requires forall i :: 0 <= i < |u| ==> u[i] != ':' && u[i] != '@'
    requires forall i :: 0 <= i < |p| ==> p[i] != ':' && p[i] != '@'
    requires Unquote(u).Some? && Unquote(p).Some?
    ensures ReadCredentials(scheme + "://" + (u + ":" + p + "@" + rest)) == Some((Unquote(u).value, Unquote(p).value))
  {
    var tail := u + ":" + p + "@" + rest;
    var whole := scheme + "://" + tail;
    assert whole[..|scheme| + 3] == scheme + "://";
    FirstSeparator(whole, scheme);
    assert whole[|scheme| + 3..] == tail;
    ReadUserInfoTextOf(u, p, rest);
  }

  lemma ReadUserInfoTextOf(u: string, p: string, rest: string)
    requires forall i :: 0 <= i < |u| ==> u[i] != ':' && u[i] != '@'
    requires forall i :: 0 <= i < |p| ==> p[i] != ':' && p[i] != '@'
    requires Unquote(u).Some? && Unquote(p).Some?
    ensures ReadUserInfoText(u + ":" + p + "@" + rest) == Some((Unquote(u).value, Unquote(p).value))
  {
    var info := u + ":" + p + "@" + rest;
    SplitUserInfo(u, p, rest);
    var colon, at := FirstIndex(info, IsColon), FirstIndex(info, IsAt);
    assert info[..colon] == u && info[colon + 1..at] == p;
  }

  lemma AuthorizedUrl(url: string, scheme: string, username: Option<string>, password: Option<string>)
    requires (username.Some? || password.Some?) && IsHttp(url)
    requires scheme == if StartsWith(url, "http://") then "http" else "https"
    ensures GetAuthorizedUrl(url, username, password) == Ok(scheme + "://" + (UserInfo(username, password) + url[|scheme| + 3..]))
  {
    var info := UserInfo(username, password);
    var r := GetAuthorizedUrl(url, username, password);
    SchemeLiterals();
    assert r.Ok?;
    if StartsWith(url, "https://") {
      assert !StartsWith(url, "http://") by {
        assert url[4] == 's';
      }
      assert r.value == "https://" + info + url[8..];
    } else {
      assert r.value == "http://" + info + url[7..];
    }
    AppendAssoc(scheme + "://", info, url[|scheme| + 3..]);
  }

  lemma SchemeLiterals()
    ensures "http" + "://" == "http://" && "https" + "://" == "https://"
  {
  }

  /** The first `:` ends the user and the first `@` the password, when neither holds either character. */
  lemma SplitUserInfo(u: string, p: string, rest: string)
    requires forall i :: 0 <= i < |u| ==> u[i] != ':' && u[i] != '@'
    requires forall i :: 0 <= i < |p| ==> p[i] != ':' && p[i] != '@'
    ensures var info := u + ":" + p + "@" + rest;
      && FirstIndex(info, IsColon) == |u|
      && FirstIndex(info, IsAt) == |u| + 1 + |p|
      && info[..|u|] == u && info[|u| + 1..|u| + 1 + |p|] == p
  {
    var info := u + ":" + p + "@" + rest;
    assert info[|u|] == ':';
    assert info[|u| + 1 + |p|] == '@';
    forall j | 0 <= j < |u| ensures info[j] != ':' && info[j] != '@' {
      assert info[j] == u[j];
    }
    forall j | |u| < j < |u| + 1 + |p| ensures info[j] != '@' {
      assert info[j] == p[j - |u| - 1];
    }
    assert info[..|u|] == u;
    assert info[|u| + 1..|u| + 1 + |p|] == p;
  }

  /** An encoded credential holds neither `:` nor `@`. */
  lemma ComponentChars(credential: Option<string>)
    ensures forall i :: 0 <= i < |Component(credential)| ==> Component(credential)[i] != ':' && Component(credential)[i] != '@'
  {
    if credential.Some? && credential.value != "" {
      QuoteBytesChars(Utf8(credential.value));
    }
  }

  /** A missing username leaves its part of the user information empty. */
  lemma MissingUsernameExample()
    ensures GetAuthorizedUrl("http://test.com", None, Some("password")) == Ok("http://:password@test.com")
    ensures GetAuthorizedUrl("http://test.com", None, None) == Ok("http://test.com")
  {
    HttpTestUrl();
    PasswordOnlyInfo();
    TestUrlTexts();
  }

  /** A missing password leaves its part of the user information empty. */
  lemma MissingPasswordExample()
    ensures GetAuthorizedUrl("http://test.com", Some("username"), None) == Ok("http://username:@test.com")
  {
    HttpTestUrl();
    UsernameOnlyInfo();
    TestUrlTexts();
  }

  lemma PasswordOnlyInfo()
    ensures UserInfo(None, Some("password")) == ":password@"
  {
    QuoteKeepsUnreserved("password");
    assert Component(Some("password")) == "password" && Component(None) == "";
    assert UserInfo(None, Some("password")) == "" + ":" + "password" + "@";
    EmptyUserInfoText();
  }

  lemma UsernameOnlyInfo()
    ensures UserInfo(Some("username"), None) == "username:@"
  {
    QuoteKeepsUnreserved("username");
    assert Component(Some("username")) == "username" && Component(None) == "";
    assert UserInfo(Some("username"), None) == "username" + ":" + "" + "@";
    EmptyUserInfoText();
  }

  lemma EmptyUserInfoText()
    ensures "" + ":" + "password" + "@" == ":password@"
    ensures "username" + ":" + "" + "@" == "username:@"
  {
  }

  lemma TestUrlTexts()
    ensures "http://" + "username:@" + "test.com" == "http://username:@test.com"
    ensures "http://" + ":password@" + "test.com" == "http://:password@test.com"
  {
  }

  lemma HttpTestUrl()
    ensures StartsWith("http://test.com", "http://") && "http://test.com"[7..] == "test.com"
    ensures !StartsWith("http://test.com", "https://")
  {
    assert "http://test.com"[4] != "https://"[4];
  }
}
