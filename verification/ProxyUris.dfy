/** Proxy URIs built from user, password, host and port, and read back as RFC 3986 says: the authority
  * split as in section 3.2, percent-encoding as in section 2.1.
  */
module ProxyUris {
  import opened Common
  import opened Decimals

  // ---------- escaping ----------

  const USER_ALLOWED := "!$&'()*+,="
  const PASSWORD_ALLOWED := "!$&'()*+,=:"
  const IP_ADDR_ALLOWED := ":"
  const HOST_ALLOWED := "!$&'()*+,;="

  predicate Alphanumeric(c: char) { '0' <= c <= '9' || 'A' <= c <= 'Z' || 'a' <= c <= 'z' }

  predicate Unreserved(c: char) { Alphanumeric(c) || c in "-._~" }

  /** Characters outside ASCII pass: the code asks for UTF-8 to be left alone. */
  predicate Passes(c: char, allowed: string) { c as int >= 0x80 || Unreserved(c) || c in allowed }

  function HexDigit(d: nat): char
    requires d < 16
  {
    "0123456789ABCDEF"[d]
  }

  function EscapedChar(c: char, allowed: string): string {
    if Passes(c, allowed) then [c] else ['%', HexDigit(c as int / 16), HexDigit(c as int % 16)]
  }

  function Escape(s: string, allowed: string): string {
    if s == "" then "" else EscapedChar(s[0], allowed) + Escape(s[1..], allowed)
  }

  predicate IsHex(c: char) { '0' <= c <= '9' || 'A' <= c <= 'F' || 'a' <= c <= 'f' }

  function HexValue(c: char): (v: nat)
    requires IsHex(c)
    ensures v < 16
  {
    if c <= '9' then (c - '0') as nat else if c <= 'F' then (c - 'A') as nat + 10 else (c - 'a') as nat + 10
  }

  function Decode(s: string): string {
    if s == "" then ""
    else if s[0] == '%' && |s| >= 3 && IsHex(s[1]) && IsHex(s[2]) then
      [(16 * HexValue(s[1]) + HexValue(s[2])) as char] + Decode(s[3..])
    else [s[0]] + Decode(s[1..])
  }

  // ---------- building ----------

  function UserInfo(user: Option<string>, password: Option<string>): string {
    if user.None? then ""
    else
      Escape(user.value, USER_ALLOWED)
      + (if password.Some? then ":" + Escape(password.value, PASSWORD_ALLOWED) else "") + "@"
  }

  function HostText(host: string, literal: bool): string {
    if literal then "[" + Escape(host, IP_ADDR_ALLOWED) + "]" else Escape(host, HOST_ALLOWED)
  }

  function PortText(port: int): string { if port > 0 then ":" + Decimal(port) else "" }

  function Authority(user: Option<string>, password: Option<string>, host: string, port: int, literal: bool): string {
    UserInfo(user, password) + HostText(host, literal) + PortText(port)
  }

  method AppendEscaped(str: string, s: string, allowed: string) returns (result: string)
    ensures result == str + Escape(s, allowed)
  {
    hide Escape;
    result := str;
    assert s[0..] == s;
    for i := 0 to |s|
      invariant result + Escape(s[i..], allowed) == str + Escape(s, allowed)
    {
      var c := s[i];
      EscapeFirst(s, i, allowed);
      assert result + (EscapedChar(c, allowed) + Escape(s[i + 1..], allowed))
          == (result + EscapedChar(c, allowed)) + Escape(s[i + 1..], allowed);
      if Passes(c, allowed) {
        result := result + [c];
      } else {
        result := result + ['%', HexDigit(c as int / 16), HexDigit(c as int % 16)];
      }
    }
    EscapeNothing(s, allowed);
  }

  lemma EscapeFirst(s: string, i: nat, allowed: string)
    requires i < |s|
    ensures Escape(s[i..], allowed) == EscapedChar(s[i], allowed) + Escape(s[i + 1..], allowed)
  {
    assert s[i..][1..] == s[i + 1..];
  }

  lemma EscapeNothing(s: string, allowed: string)
    ensures Escape(s[|s|..], allowed) == ""
  {}

  lemma Joined(a: string, b: string, c: string, d: string)
    ensures a + b + c + d == a + (b + c + d)
  {}

  // ---------- reading ----------

  datatype Parts = Parts(user: Option<string>, password: Option<string>, host: string, literal: bool, port: Option<nat>)

  /** The first position of a character, or the length. */
  function IndexOf(s: string, c: char): (i: nat)
    ensures i <= |s| && c !in s[..i] && (i < |s| ==> s[i] == c)
  {
    if s == "" || s[0] == c then 0 else 1 + IndexOf(s[1..], c)
  }

  /** An authority ends at the first slash, question mark or number sign. */
  function AuthorityLength(s: string): nat {
    if s == "" || s[0] in "/?#" then 0 else 1 + AuthorityLength(s[1..])
  }

  function ReadPort(s: string): Option<Option<nat>> {
    if s == "" then Some(None)
    else if s[0] == ':' && |s| > 1 && forall i :: 0 < i < |s| ==> IsDigit(s[i]) then
      assert forall i :: 0 <= i < |s[1..]| ==> s[1..][i] == s[i + 1];
      Some(Some(Parse(s[1..])))
    else None
  }

  function ReadHostPort(s: string, user: Option<string>, password: Option<string>): Option<Parts> {
    if s != "" && s[0] == '[' then
      var close := IndexOf(s, ']');
      if close == |s| then None
      else
        var port := ReadPort(s[close + 1..]);
        if port.None? then None else Some(Parts(user, password, Decode(s[1..close]), true, port.value))
    else
      var colon := IndexOf(s, ':');
      var port := ReadPort(s[colon..]);
      if port.None? then None else Some(Parts(user, password, Decode(s[..colon]), false, port.value))
  }

  function ReadAuthority(s: string): Option<Parts> {
    var at := IndexOf(s, '@');
    if at == |s| then ReadHostPort(s, None, None)
    else
      var info := s[..at];
      var colon := IndexOf(info, ':');
      var password := if colon == |info| then None else Some(Decode(info[colon + 1..]));
      ReadHostPort(s[at + 1..], Some(Decode(info[..colon])), password)
  }

  /** The parts of the URI that begins with a scheme and "://". */
  function ReadUri(uri: string): Option<(string, Parts)> {
    var colon := IndexOf(uri, ':');
    if colon + 3 > |uri| || uri[colon..colon + 3] != "://" then None
    else
      var rest := uri[colon + 3..];
      AuthorityLengthBound(rest);
      var parts := ReadAuthority(rest[..AuthorityLength(rest)]);
      if parts.None? then None else Some((uri[..colon], parts.value))
  }

  lemma {:induction false} AuthorityLengthBound(s: string)
    ensures AuthorityLength(s) <= |s|
  {
    if s != "" { AuthorityLengthBound(s[1..]); }
  }

  // ---------- escaping and back ----------

  lemma DecodeFirst(c: char, allowed: string, rest: string)
    requires '%' !in allowed
    ensures Decode(EscapedChar(c, allowed) + rest) == [c] + Decode(rest)
  {
    var e := EscapedChar(c, allowed);
    if Passes(c, allowed) {
      assert (e + rest)[1..] == rest;
    } else {
      HexBack(c as int / 16);
      HexBack(c as int % 16);
      assert (e + rest)[3..] == rest;
    }
  }

  lemma HexBack(d: nat)
    requires d < 16
    ensures IsHex(HexDigit(d)) && HexValue(HexDigit(d)) == d
  {}

  lemma {:induction false} DecodeEscape(s: string, allowed: string)
    requires '%' !in allowed
    ensures Decode(Escape(s, allowed)) == s
  {
    if s != "" {
      DecodeEscape(s[1..], allowed);
      DecodeFirst(s[0], allowed, Escape(s[1..], allowed));
      assert s == [s[0]] + s[1..];
    }
  }

  /** A reserved character that is not allowed never stands in an escaped text. */
  predicate Kept(c: char, allowed: string) { c as int < 0x80 && !Unreserved(c) && c !in allowed && c != '%' }

  lemma {:induction false} EscapeAvoids(s: string, allowed: string, c: char)
    requires Kept(c, allowed)
    ensures c !in Escape(s, allowed)
  {
    if s != "" {
      EscapeAvoids(s[1..], allowed, c);
      if !Passes(s[0], allowed) {
        HexIsAlphanumeric(s[0] as int / 16);
        HexIsAlphanumeric(s[0] as int % 16);
      }
    }
  }

  lemma HexIsAlphanumeric(d: nat)
    requires d < 16
    ensures Alphanumeric(HexDigit(d))
  {}

  // ---------- delimiters ----------

  lemma {:induction false} IndexAfter(a: string, c: char, rest: string)
    requires c !in a
    ensures IndexOf(a + [c] + rest, c) == |a|
    ensures IndexOf(a, c) == |a|
    ensures (a + [c] + rest)[..|a|] == a && (a + [c] + rest)[|a| + 1..] == rest
  {
    if a != "" {
      assert (a + [c] + rest)[1..] == a[1..] + [c] + rest;
      IndexAfter(a[1..], c, rest);
    }
  }

  lemma PortBack(port: int)
    ensures ReadPort(PortText(port)) == Some(if port > 0 then Some(port) else None)
  {
    if port > 0 {
      ParseDecimal(port);
      var s := PortText(port);
      assert s[1..] == Decimal(port);
      forall i | 0 < i < |s| ensures IsDigit(s[i]) { assert s[i] == Decimal(port)[i - 1]; }
    }
  }

  lemma PortAvoids(port: int, c: char)
    requires c != ':' && !IsDigit(c)
    ensures c !in PortText(port)
  {}

  lemma LiteralBack(host: string, port: int, user: Option<string>, password: Option<string>)
    ensures ReadHostPort(HostText(host, true) + PortText(port), user, password)
         == Some(Parts(user, password, host, true, if port > 0 then Some(port) else None))
  {
    hide Escape, Decode, IndexOf, ReadPort, PortText;
    var e, p := Escape(host, IP_ADDR_ALLOWED), PortText(port);
    var s := HostText(host, true) + p;
    EscapeAvoids(host, IP_ADDR_ALLOWED, ']');
    assert s == ("[" + e) + [']'] + p;
    IndexAfter("[" + e, ']', p);
    assert s[1..|e| + 1] == e;
    DecodeEscape(host, IP_ADDR_ALLOWED);
    PortBack(port);
  }

  lemma NameBack(host: string, port: int, user: Option<string>, password: Option<string>)
    ensures ReadHostPort(HostText(host, false) + PortText(port), user, password)
         == Some(Parts(user, password, host, false, if port > 0 then Some(port) else None))
  {
    hide Escape, Decode, IndexOf, ReadPort;
    var e, p := Escape(host, HOST_ALLOWED), PortText(port);
    var s := HostText(host, false) + p;
    EscapeAvoids(host, HOST_ALLOWED, ':');
    EscapeAvoids(host, HOST_ALLOWED, '[');
    PortAvoids(port, '[');
    assert s != "" ==> s[0] in e || s[0] in p;
    if port > 0 {
      assert s == e + [':'] + Decimal(port);
      IndexAfter(e, ':', Decimal(port));
    } else {
      assert s == e;
      IndexAfter(e, ':', "");
    }
    assert s[..|e|] == e && s[|e|..] == p;
    DecodeEscape(host, HOST_ALLOWED);
    PortBack(port);
  }

  lemma HostPortAvoids(host: string, port: int, literal: bool, c: char)
    requires c in "@/?#"
    ensures c !in HostText(host, literal) + PortText(port)
  {
    EscapeAvoids(host, IP_ADDR_ALLOWED, c);
    EscapeAvoids(host, HOST_ALLOWED, c);
    PortAvoids(port, c);
  }

  /** The password that is part of the URI: none without a user. */
  function Sent(user: Option<string>, password: Option<string>): Option<string> {
    if user.Some? then password else None
  }

  function PartsOf(user: Option<string>, password: Option<string>, host: string, port: int, literal: bool): Parts {
    Parts(user, Sent(user, password), host, literal, if port > 0 then Some(port) else None)
  }

  /** Splitting the authority and decoding its parts recovers them, whatever characters they hold. */
  lemma AuthorityRoundTrip(user: Option<string>, password: Option<string>, host: string, port: int, literal: bool)
    ensures ReadAuthority(Authority(user, password, host, port, literal)) == Some(PartsOf(user, password, host, port, literal))
  {
    hide *;
    var parts := Some(PartsOf(user, password, host, port, literal));
    if user.Some? {
      UserBack(user.value, password, host, port, literal, parts);
    } else {
      NoUserBack(password, host, port, literal, parts);
    }
  }

  lemma UserBack(user: string, password: Option<string>, host: string, port: int, literal: bool, parts: Option<Parts>)
    requires parts == Some(PartsOf(Some(user), password, host, port, literal))
    ensures ReadAuthority(Authority(Some(user), password, host, port, literal)) == parts
  {
    hide Authority, UserInfo, Escape, Decode, IndexOf, ReadHostPort, HostText, PortText;
    var rest := HostText(host, literal) + PortText(port);
    HostBack(host, port, literal, Some(user), password);
    var e := Escape(user, USER_ALLOWED);
    var info := if password.Some? then e + [':'] + Escape(password.value, PASSWORD_ALLOWED) else e;
    InfoBack(user, password, info);
    AuthorityWithUser(user, password, host, port, literal, info);
    IndexAfter(info, '@', rest);
  }

  lemma NoUserBack(password: Option<string>, host: string, port: int, literal: bool, parts: Option<Parts>)
    requires parts == Some(PartsOf(None, password, host, port, literal))
    ensures ReadAuthority(Authority(None, password, host, port, literal)) == parts
  {
    hide Escape, Decode, IndexOf, ReadHostPort, HostText, PortText;
    var rest := HostText(host, literal) + PortText(port);
    HostPortAvoids(host, port, literal, '@');
    HostBack(host, port, literal, None, None);
    assert Authority(None, password, host, port, literal) == rest;
    IndexAfter(rest, '@', "");
  }

  lemma AuthorityWithUser(user: string, password: Option<string>, host: string, port: int, literal: bool, info: string)
    requires info == if password.Some? then Escape(user, USER_ALLOWED) + [':'] + Escape(password.value, PASSWORD_ALLOWED)
                     else Escape(user, USER_ALLOWED)
    ensures Authority(Some(user), password, host, port, literal) == info + ['@'] + (HostText(host, literal) + PortText(port))
  {
    hide Escape, HostText, PortText;
    assert UserInfo(Some(user), password) == info + ['@'];
  }

  lemma HostBack(host: string, port: int, literal: bool, user: Option<string>, password: Option<string>)
    ensures ReadHostPort(HostText(host, literal) + PortText(port), user, password)
         == Some(Parts(user, password, host, literal, if port > 0 then Some(port) else None))
  {
    if literal { LiteralBack(host, port, user, password); } else { NameBack(host, port, user, password); }
  }

  lemma InfoBack(user: string, password: Option<string>, info: string)
    requires info == if password.Some? then Escape(user, USER_ALLOWED) + [':'] + Escape(password.value, PASSWORD_ALLOWED)
                     else Escape(user, USER_ALLOWED)
    ensures '@' !in info
    ensures var colon := IndexOf(info, ':');
      && Decode(info[..colon]) == user
      && password == if colon == |info| then None else Some(Decode(info[colon + 1..]))
  {
    hide Escape, Decode, IndexOf;
    var e := Escape(user, USER_ALLOWED);
    EscapeAvoids(user, USER_ALLOWED, ':');
    EscapeAvoids(user, USER_ALLOWED, '@');
    DecodeEscape(user, USER_ALLOWED);
    if password.Some? {
      EscapeAvoids(password.value, PASSWORD_ALLOWED, '@');
      DecodeEscape(password.value, PASSWORD_ALLOWED);
      IndexAfter(e, ':', Escape(password.value, PASSWORD_ALLOWED));
    } else {
      IndexAfter(e, ':', "");
      assert info[..|info|] == info;
    }
  }

  lemma {:induction false} NoDelimiter(s: string)
    requires '/' !in s && '?' !in s && '#' !in s
    ensures AuthorityLength(s) == |s|
  {
    if s != "" { NoDelimiter(s[1..]); }
  }

  lemma AuthorityAvoids(user: Option<string>, password: Option<string>, host: string, port: int, literal: bool, c: char)
    requires c in "/?#"
    ensures c !in Authority(user, password, host, port, literal)
  {
    hide Escape, HostText, PortText;
    HostPortAvoids(host, port, literal, c);
    if user.Some? {
      EscapeAvoids(user.value, USER_ALLOWED, c);
      if password.Some? { EscapeAvoids(password.value, PASSWORD_ALLOWED, c); }
    }
  }

  /** The whole URI read back: scheme, user, password, host, and port. */
  lemma UriRoundTrip(protocol: string, user: Option<string>, password: Option<string>, host: string, port: int, literal: bool)
    requires ':' !in protocol
    ensures ReadUri(protocol + "://" + Authority(user, password, host, port, literal))
         == Some((protocol, PartsOf(user, password, host, port, literal)))
  {
    hide Authority, IndexOf, ReadAuthority, AuthorityLength;
    var a := Authority(user, password, host, port, literal);
    var uri := protocol + "://" + a;
    assert uri == protocol + [':'] + ("//" + a);
    IndexAfter(protocol, ':', "//" + a);
    assert uri[|protocol| + 3..] == a;
    AuthorityAvoids(user, password, host, port, literal, '/');
    AuthorityAvoids(user, password, host, port, literal, '?');
    AuthorityAvoids(user, password, host, port, literal, '#');
    NoDelimiter(a);
    assert a[..|a|] == a;
    AuthorityRoundTrip(user, password, host, port, literal);
  }

  /** Two proxies have the same URI exactly when they agree in all that counts: a password counts only
    * with a user, and a port only above zero. */
  lemma SameUriIff(user: Option<string>, password: Option<string>, host: string, port: int,
                   user': Option<string>, password': Option<string>, host': string, port': int,
                   isIpAddress: string -> bool)
    ensures var literal := ':' in host && isIpAddress(host); var literal' := ':' in host' && isIpAddress(host');
      Authority(user, password, host, port, literal) == Authority(user', password', host', port', literal') <==>
        && user == user' && (user.Some? ==> password == password') && host == host'
        && (port == port' || (port <= 0 && port' <= 0))
  {
    AuthorityRoundTrip(user, password, host, port, ':' in host && isIpAddress(host));
    AuthorityRoundTrip(user', password', host', port', ':' in host' && isIpAddress(host'));
    hide Authority, ReadAuthority;
    if user == user' && (user.Some? ==> password == password') && host == host'
       && (port == port' || (port <= 0 && port' <= 0)) {
      SameParts(user, password, password', host, port, port', ':' in host && isIpAddress(host));
    }
  }

  lemma SameParts(user: Option<string>, password: Option<string>, password': Option<string>,
                  host: string, port: int, port': int, literal: bool)
    ensures ((user.Some? ==> password == password') && (port == port' || (port <= 0 && port' <= 0))) ==>
              Authority(user, password, host, port, literal) == Authority(user, password', host, port', literal)
  {}

  // ---------- the code ----------

  method AppendUserInfo(str: string, user: Option<string>, password: Option<string>) returns (result: string)
    ensures result == str + UserInfo(user, password)
  {
    hide Escape;
    result := str;
    if user.Some? {
      result := AppendEscaped(result, user.value, USER_ALLOWED);
      ghost var text := Escape(user.value, USER_ALLOWED);
      if password.Some? {
        result := result + ":";
        result := AppendEscaped(result, password.value, PASSWORD_ALLOWED);
        text := text + (":" + Escape(password.value, PASSWORD_ALLOWED));
      }
      assert result == str + text;
      result := result + "@";
      assert result == str + (text + "@");
    }
  }

  method AppendHost(str: string, host: string, isIpAddress: string -> bool) returns (result: string)
    ensures result == str + HostText(host, ':' in host && isIpAddress(host))
  {
    hide Escape;
    result := str;
    if ':' in host && isIpAddress(host) {
      result := result + "[";
      result := AppendEscaped(result, host, IP_ADDR_ALLOWED);
      result := result + "]";
    } else {
      result := AppendEscaped(result, host, HOST_ALLOWED);
    }
  }

  /** The URI as built, read back: the scheme, the user and password if there is a user, the host, the port
    * if it is above zero.  The host is taken for a literal address exactly if it has a colon and the
    * resolver library says it is an IP address; exactly then it stands in brackets. */
  method UriBuildWithUser(protocol: string, user: Option<string>, password: Option<string>, host: string, port: int,
                          isIpAddress: string -> bool)
    returns (uri: string)
    ensures ':' !in protocol ==>
              ReadUri(uri) == Some((protocol, Parts(user, if user.Some? then password else None, host,
                                                    ':' in host && isIpAddress(host), if port > 0 then Some(port) else None)))
    ensures |protocol| <= |uri| && uri[..|protocol|] == protocol
    ensures '[' in uri[|protocol|..] <==> ':' in host && isIpAddress(host)
  {
    hide *;
    ghost var literal := ':' in host && isIpAddress(host);
    var str := protocol + "://";
    str := AppendUserInfo(str, user, password);
    str := AppendHost(str, host, isIpAddress);
    ghost var front := str;
    if port > 0 {
      str := str + ":" + Decimal(port);
    }
    PortAppended(front, port);
    Assembled(protocol, user, password, host, port, literal);
    BuiltReadsBack(protocol, user, password, host, port, literal, str);
    uri := str;
  }

  lemma PortAppended(front: string, port: int)
    ensures front + PortText(port) == if port > 0 then front + ":" + Decimal(port) else front
  {}

  lemma Assembled(protocol: string, user: Option<string>, password: Option<string>, host: string, port: int, literal: bool)
    ensures protocol + "://" + UserInfo(user, password) + HostText(host, literal) + PortText(port)
         == protocol + "://" + Authority(user, password, host, port, literal)
  {
    hide UserInfo, HostText, PortText;
    Joined(protocol + "://", UserInfo(user, password), HostText(host, literal), PortText(port));
  }

  lemma BuiltReadsBack(protocol: string, user: Option<string>, password: Option<string>, host: string, port: int,
                       literal: bool, uri: string)
    requires uri == protocol + "://" + Authority(user, password, host, port, literal)
    ensures ':' !in protocol ==>
              ReadUri(uri) == Some((protocol, Parts(user, if user.Some? then password else None, host, literal,
                                                    if port > 0 then Some(port) else None)))
    ensures |protocol| <= |uri| && uri[..|protocol|] == protocol
    ensures '[' in uri[|protocol|..] <==> literal
  {
    hide Authority, ReadUri;
    if ':' !in protocol { UriRoundTrip(protocol, user, password, host, port, literal); }
    Brackets(user, password, host, port, literal);
    var a := Authority(user, password, host, port, literal);
    assert uri == protocol + ("://" + a);
    assert uri[|protocol|..] == "://" + a;
  }

  lemma Brackets(user: Option<string>, password: Option<string>, host: string, port: int, literal: bool)
    ensures '[' in Authority(user, password, host, port, literal) <==> literal
  {
    hide Escape, PortText;
    PortAvoids(port, '[');
    EscapeAvoids(host, IP_ADDR_ALLOWED, '[');
    EscapeAvoids(host, HOST_ALLOWED, '[');
    if user.Some? {
      EscapeAvoids(user.value, USER_ALLOWED, '[');
      if password.Some? { EscapeAvoids(password.value, PASSWORD_ALLOWED, '['); }
    }
    assert '[' !in UserInfo(user, password);
    assert '[' in HostText(host, literal) <==> literal by {
      if literal { assert HostText(host, literal)[0] == '['; }
    }
    hide UserInfo, HostText;
  }

  // ---------- which characters are escaped ----------

  predicate IsUnreserved(c: char) {
    '0' <= c <= '9' || 'A' <= c <= 'Z' || 'a' <= c <= 'z' || c == '-' || c == '.' || c == '_' || c == '~'
  }

  /** A percent sign and two hexadecimal digits in upper case. */
  predicate IsPercentEncoded(s: string) {
    |s| == 3 && s[0] == '%' && forall i :: 1 <= i < 3 ==> '0' <= s[i] <= '9' || 'A' <= s[i] <= 'F'
  }

  /** Unreserved characters, those outside ASCII and the sub-delimiters listed stay as they are; a colon
    * does so only in passwords and literal addresses; everything else is percent-encoded. */
  lemma EscapedIff(c: char)
    ensures var plain := IsUnreserved(c) || c as int >= 128;
      EscapedChar(c, USER_ALLOWED) == [c] <==> (plain || c in "!$&'()*+,=")
    ensures var plain := IsUnreserved(c) || c as int >= 128;
      EscapedChar(c, PASSWORD_ALLOWED) == [c] <==> (plain || c in "!$&'()*+,=:")
    ensures var plain := IsUnreserved(c) || c as int >= 128;
      EscapedChar(c, IP_ADDR_ALLOWED) == [c] <==> (plain || c == ':')
    ensures var plain := IsUnreserved(c) || c as int >= 128;
      EscapedChar(c, HOST_ALLOWED) == [c] <==> (plain || c in "!$&'()*+,;=")
    ensures forall allowed :: EscapedChar(c, allowed) == [c] || IsPercentEncoded(EscapedChar(c, allowed))
  {
    forall allowed ensures EscapedChar(c, allowed) == [c] || IsPercentEncoded(EscapedChar(c, allowed)) {
      if !Passes(c, allowed) {
        UpperHex(c as int / 16);
        UpperHex(c as int % 16);
      }
    }
  }

  lemma UpperHex(d: nat)
    ensures d < 16 ==> '0' <= HexDigit(d) <= '9' || 'A' <= HexDigit(d) <= 'F'
  {}
}
