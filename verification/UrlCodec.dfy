/** Commands to the server rendered as URLs, and what a receiver reads back. */
module UrlCodec {
  import opened Text

  predicate IsSpecial(c: char) {
    || c == ':' || c == '?' || c == '=' || c == '&' || c == '*' || c == '\'' || c == '"'
    || c == '%' || c == '+' || c == '\\' || c == '(' || c == ')' || c == ' '
  }

  /** The escape of one character; a backslash becomes the escape of a slash. */
  function EncodeChar(c: char): string {
    if c == ':' then "%3A"
    else if c == '?' then "%3F"
    else if c == '=' then "%3D"
    else if c == '&' then "%26"
    else if c == '*' then "%2A"
    else if c == '\'' then "%27"
    else if c == '"' then "%22"
    else if c == '%' then "%25"
    else if c == '+' then "%2B"
    else if c == '\\' then "%2F"
    else if c == '(' then "%28"
    else if c == ')' then "%29"
    else if c == ' ' then "%20"
    else [c]
  }

  function EncodeAll(s: string): string {
    if s == "" then "" else EncodeChar(s[0]) + EncodeAll(s[1..])
  }

  /** The length of the scheme that is left alone. */
  function SkipLength(s: string, skipScheme: bool): (n: nat)
    ensures n <= |s|
  {
    if !skipScheme then 0
    else if "http:" <= s || "file:" <= s then 5
    else if "ftp:" <= s then 4
    else 0
  }

  function Encoded(s: string, skipScheme: bool): string {
    s[..SkipLength(s, skipScheme)] + EncodeAll(s[SkipLength(s, skipScheme)..])
  }

  lemma EncodeStep(done: string, s: string, i: nat)
    requires i < |s|
    ensures done + EncodeChar(s[i]) + EncodeAll(s[i + 1..]) == done + EncodeAll(s[i..])
  {
    assert s[i..][1..] == s[i + 1..];
  }

  method EncodeUrlVal(urlVal: string, skipScheme: bool) returns (encodedUrl: string)
    ensures encodedUrl == Encoded(urlVal, skipScheme)
  {
    var idx := 0;
    if skipScheme {
      if "http:" <= urlVal || "file:" <= urlVal {
        idx := 5;
      } else if "ftp:" <= urlVal {
        idx := 4;
      }
    }
    var strP := idx;
    encodedUrl := urlVal[..idx];
    while strP < |urlVal|
      invariant idx <= strP <= |urlVal|
      invariant encodedUrl + EncodeAll(urlVal[strP..]) == urlVal[..idx] + EncodeAll(urlVal[idx..])
    {
      EncodeStep(encodedUrl, urlVal, strP);
      encodedUrl := encodedUrl + EncodeChar(urlVal[strP]);
      strP := strP + 1;
    }
  }

  /** Thirteen characters are written as a percent sign and the two upper-case
      hexadecimal digits of their code, a backslash with those of a slash; all
      other characters stand for themselves. */
  function Escape(c: char): string {
    if c in ":?=&*'\"%+\\() " then
      var code := if c == '\\' then '/' as int else c as int;
      ['%', "0123456789ABCDEF"[code / 16], "0123456789ABCDEF"[code % 16]]
    else [c]
  }

  /** The value is escaped character by character, but for the name of one of the
      three schemes in front, if that is asked for. */
  lemma EncodedExactly(s: string)
    ensures Encoded(s, false) == if s == "" then "" else Escape(s[0]) + Encoded(s[1..], false)
    ensures "http:" <= s ==> Encoded(s, true) == "http:" + Encoded(s[5..], false)
    ensures "file:" <= s ==> Encoded(s, true) == "file:" + Encoded(s[5..], false)
    ensures "ftp:" <= s ==> Encoded(s, true) == "ftp:" + Encoded(s[4..], false)
    ensures !("http:" <= s || "file:" <= s || "ftp:" <= s) ==> Encoded(s, true) == Encoded(s, false)
  {
    EncodedFirst(s);
    WholeEncoded(s[SkipLength(s, true)..]);
    OneScheme(s);
  }

  lemma OneScheme(s: string)
    ensures "ftp:" <= s ==> !("http:" <= s) && !("file:" <= s)
  {
    BeginningsAgree("ftp:", "http:", s, 0);
    BeginningsAgree("ftp:", "file:", s, 1);
  }

  lemma BeginningsAgree(p: string, q: string, s: string, i: nat)
    requires i < |p| && i < |q|
    ensures p <= s && q <= s ==> p[i] == q[i]
  {}

  lemma EncodedFirst(s: string)
    ensures Encoded(s, false) == if s == "" then "" else Escape(s[0]) + Encoded(s[1..], false)
  {
    WholeEncoded(s);
    if s != "" {
      EncodesEscape(s[0]);
      WholeEncoded(s[1..]);
    }
  }

  lemma WholeEncoded(s: string)
    ensures Encoded(s, false) == EncodeAll(s)
  {
    assert s[0..] == s;
  }

  lemma EncodesEscape(c: char)
    ensures EncodeChar(c) == Escape(c)
  {
    var escaped := ":?=&*'\"%+\\() ";
    assert |escaped| == 13;
    assert c in escaped <==> IsSpecial(c);
  }

  // ---------------------------------------------------------------- percent-decoding

  predicate IsHex(c: char) {
    '0' <= c <= '9' || 'A' <= c <= 'F' || 'a' <= c <= 'f'
  }

  function HexValue(c: char): (v: nat)
    requires IsHex(c)
    ensures v < 16
  {
    if '0' <= c <= '9' then c as int - '0' as int
    else if 'A' <= c <= 'F' then c as int - 'A' as int + 10
    else c as int - 'a' as int + 10
  }

  predicate TripletAt(s: string, i: int) {
    0 <= i && i + 2 < |s| && s[i] == '%' && IsHex(s[i + 1]) && IsHex(s[i + 2])
  }

  /** Section 2.1 of RFC 3986: a percent sign and two hexadecimal digits stand
      for one octet, everything else for itself. */
  function Decode(s: string): string {
    if s == "" then ""
    else if TripletAt(s, 0) then [(16 * HexValue(s[1]) + HexValue(s[2])) as char] + Decode(s[3..])
    else [s[0]] + Decode(s[1..])
  }

  function Slashed(s: string): (r: string)
    ensures |r| == |s|
    ensures forall i :: 0 <= i < |s| ==> r[i] == if s[i] == '\\' then '/' else s[i]
  {
    if s == "" then "" else [if s[0] == '\\' then '/' else s[0]] + Slashed(s[1..])
  }

  lemma SlashedIdentity(s: string)
    ensures Slashed(s) == s <==> '\\' !in s
  {
    if '\\' in s {
      var i :| 0 <= i < |s| && s[i] == '\\';
      assert Slashed(s)[i] == '/';
    }
  }

  lemma DecodeTriplet(c: char, t: string)
    requires IsSpecial(c)
    ensures |EncodeChar(c)| == 3 && TripletAt(EncodeChar(c) + t, 0)
    ensures Decode(EncodeChar(c) + t) == [if c == '\\' then '/' else c] + Decode(t)
  {
    var s := EncodeChar(c) + t;
    assert s[3..] == t;
  }

  lemma {:induction false} DecodeEncoded(s: string, t: string)
    ensures Decode(EncodeAll(s) + t) == Slashed(s) + Decode(t)
  {
    if s == "" {
      assert EncodeAll(s) + t == t;
    } else {
      DecodeEncoded(s[1..], t);
      DecodeFirst(s[0], EncodeAll(s[1..]) + t);
      DecodePair(EncodeChar(s[0]), EncodeAll(s[1..]), t, Slashed([s[0]]), Slashed(s[1..]));
      SlashedConcat([s[0]], s[1..]);
      assert s == [s[0]] + s[1..];
    }
  }

  lemma DecodePair(first: string, rest: string, t: string, f: string, r: string)
    requires Decode(rest + t) == r + Decode(t)
    requires Decode(first + (rest + t)) == f + Decode(rest + t)
    ensures Decode(first + rest + t) == f + r + Decode(t)
  {
    assert first + rest + t == first + (rest + t);
  }

  lemma DecodeFirst(c: char, t: string)
    ensures Decode(EncodeChar(c) + t) == Slashed([c]) + Decode(t)
  {
    if IsSpecial(c) {
      DecodeTriplet(c, t);
    } else {
      assert ([c] + t)[1..] == t;
    }
  }

  lemma {:induction false} DecodePlain(s: string, t: string)
    requires '%' !in s
    ensures Decode(s + t) == s + Decode(t)
  {
    if s == "" {
      assert s + t == t;
    } else {
      assert (s + t)[1..] == s[1..] + t;
      DecodePlain(s[1..], t);
    }
  }

  lemma PartsDecodeBack(scheme: string, rest: string)
    requires '%' !in scheme && '\\' !in scheme
    ensures Decode(scheme + EncodeAll(rest)) == Slashed(scheme + rest)
  {
    DecodePlain(scheme, EncodeAll(rest));
    DecodeEncoded(rest, "");
    assert EncodeAll(rest) + "" == EncodeAll(rest) && Slashed(rest) + Decode("") == Slashed(rest);
    SlashedConcat(scheme, rest);
    SlashedIdentity(scheme);
  }

  /** Decoding gives back the value, but for backslashes, which turn into
      slashes: nothing else is confused. */
  lemma DecodesBack(s: string, skipScheme: bool)
    ensures Decode(Encoded(s, skipScheme)) == Slashed(s)
    ensures Decode(Encoded(s, skipScheme)) == s <==> '\\' !in s
  {
    var n := SkipLength(s, skipScheme);
    var scheme, rest := s[..n], s[n..];
    assert s == scheme + rest;
    SchemePlain(s, skipScheme);
    PartsDecodeBack(scheme, rest);
    SlashedIdentity(s);
  }

  lemma SchemePlain(s: string, skipScheme: bool)
    ensures var scheme := s[..SkipLength(s, skipScheme)];
      '%' !in scheme && '\\' !in scheme && '?' !in scheme && '&' !in scheme && '=' !in scheme && '"' !in scheme
  {
    var scheme := s[..SkipLength(s, skipScheme)];
    assert scheme == "" || scheme == "http:" || scheme == "file:" || scheme == "ftp:";
  }

  lemma {:induction false} SlashedConcat(a: string, b: string)
    ensures Slashed(a + b) == Slashed(a) + Slashed(b)
  {
    if a == "" {
      assert a + b == b;
    } else {
      assert (a + b)[1..] == a[1..] + b;
      SlashedConcat(a[1..], b);
    }
  }

  lemma EncodingInjective(s: string, t: string, skipScheme: bool)
    requires '\\' !in s && '\\' !in t && Encoded(s, skipScheme) == Encoded(t, skipScheme)
    ensures s == t
  {
    DecodesBack(s, skipScheme);
    DecodesBack(t, skipScheme);
  }

  /** Past the scheme no special character is left but the percent signs of the
      triplets, and the value has grown to three times its length at most. */
  lemma {:induction false} EncodedIsClean(s: string, i: nat)
    requires i < |EncodeAll(s)| && IsSpecial(EncodeAll(s)[i])
    ensures TripletAt(EncodeAll(s), i)
  {
    var first, rest := EncodeChar(s[0]), EncodeAll(s[1..]);
    if i < |first| {
      CharIsClean(s[0], rest, i);
    } else {
      EncodedIsClean(s[1..], i - |first|);
      TripletBehind(first, rest, i);
    }
  }

  lemma TripletBehind(first: string, rest: string, i: nat)
    requires |first| <= i && TripletAt(rest, i - |first|)
    ensures TripletAt(first + rest, i)
  {}

  lemma CharIsClean(c: char, rest: string, i: nat)
    requires i < |EncodeChar(c)| && IsSpecial(EncodeChar(c)[i])
    ensures TripletAt(EncodeChar(c) + rest, i)
  {}

  lemma {:induction false} EncodedLength(s: string, skipScheme: bool)
    ensures |s| <= |Encoded(s, skipScheme)| <= 3 * |s|
  {
    EncodeAllLength(s[SkipLength(s, skipScheme)..]);
  }

  lemma {:induction false} EncodeAllLength(s: string)
    ensures |s| <= |EncodeAll(s)| <= 3 * |s|
  {
    if s != "" {
      EncodeAllLength(s[1..]);
    }
  }

  lemma {:induction false} EncodeAllLacks(s: string, c: char)
    requires IsSpecial(c) && c != '%'
    ensures c !in EncodeAll(s)
  {
    if c in EncodeAll(s) {
      var i :| 0 <= i < |EncodeAll(s)| && EncodeAll(s)[i] == c;
      EncodedIsClean(s, i);
    }
  }

  lemma EncodedLacks(s: string, c: char)
    requires c == '?' || c == '&' || c == '=' || c == '"'
    ensures c !in Encoded(s, true)
  {
    EncodeAllLacks(s[SkipLength(s, true)..], c);
    SchemePlain(s, true);
  }

  // ---------------------------------------------------------------- commands

  datatype Parameter = Parameter(name: string, value: string)

  function Rendered(p: Parameter): string {
    Encoded(p.name, true) + "=\"" + Encoded(p.value, true) + "\""
  }

  function AllRendered(pars: seq<Parameter>): (parts: seq<string>)
    ensures |parts| == |pars|
  {
    if pars == [] then [] else [Rendered(pars[0])] + AllRendered(pars[1..])
  }

  lemma {:induction false} AllRenderedSnoc(pars: seq<Parameter>, p: Parameter)
    ensures AllRendered(pars + [p]) == AllRendered(pars) + [Rendered(p)]
  {
    if pars == [] {
      assert [p][1..] == [];
    } else {
      assert (pars + [p])[1..] == pars[1..] + [p];
      AllRenderedSnoc(pars[1..], p);
    }
  }

  /** A question mark before the first part, an ampersand before the others. */
  function Assemble(cmd: string, parts: seq<string>): string {
    if parts == [] then cmd
    else
      Assemble(cmd, parts[..|parts| - 1]) + (if |parts| == 1 then "?" else "&") + parts[|parts| - 1]
  }

  lemma AssembleSnoc(cmd: string, parts: seq<string>, last: string)
    ensures Assemble(cmd, parts + [last]) == Assemble(cmd, parts) + (if parts == [] then "?" else "&") + last
  {
    assert (parts + [last])[..|parts|] == parts;
  }

  /** The URL of a command. */
  function Url(cmd: string, pars: seq<Parameter>): string {
    Assemble(cmd, AllRendered(pars))
  }

  lemma UrlSnoc(cmd: string, pars: seq<Parameter>, i: nat)
    requires i < |pars|
    ensures Url(cmd, pars[..i + 1]) == Url(cmd, pars[..i]) + (if i == 0 then "?" else "&") + Rendered(pars[i])
  {
    assert pars[..i + 1] == pars[..i] + [pars[i]];
    AllRenderedSnoc(pars[..i], pars[i]);
    AssembleSnoc(cmd, AllRendered(pars[..i]), Rendered(pars[i]));
  }

  /** A command without parameters is its URL; a further parameter is put behind,
      with its value in double quotes. */
  lemma UrlExactly(cmd: string, pars: seq<Parameter>, p: Parameter)
    ensures Url(cmd, []) == cmd
    ensures Url(cmd, pars + [p]) ==
      Url(cmd, pars) + (if pars == [] then "?" else "&")
      + Encoded(p.name, true) + "=\"" + Encoded(p.value, true) + "\""
  {
    AllRenderedSnoc(pars, p);
    AssembleSnoc(cmd, AllRendered(pars), Rendered(p));
  }

  method BuildUrl(cmd: string, pars: seq<Parameter>) returns (url: string)
    ensures url == Url(cmd, pars)
  {
    url := cmd;
    for i := 0 to |pars|
      invariant url == Url(cmd, pars[..i])
    {
      var tmpPar := EncodeUrlVal(pars[i].name, true);
      var tmpVal := EncodeUrlVal(pars[i].value, true);
      var tmpUrl := tmpPar + "=\"" + tmpVal + "\"";
      assert tmpUrl == Rendered(pars[i]);
      UrlSnoc(cmd, pars, i);
      url := url + (if i == 0 then "?" else "&");
      url := url + tmpUrl;
    }
    assert pars[..|pars|] == pars;
  }

  datatype Request = Request(cmd: string, pars: seq<Parameter>)

  function Unquoted(s: string): string {
    if |s| >= 2 && s[0] == '"' && s[|s| - 1] == '"' then s[1..|s| - 1] else s
  }

  function ReadParameter(part: string): Parameter {
    Parameter(Decode(Before(part, '=')), Decode(Unquoted(Behind(part, '='))))
  }

  function ReadParameters(parts: seq<string>): seq<Parameter> {
    if parts == [] then [] else [ReadParameter(parts[0])] + ReadParameters(parts[1..])
  }

  /** The receiver: the query component starts behind the first question mark
      (section 3.4 of RFC 3986), its parts are separated by ampersands. */
  function Read(url: string): Request {
    Request(Before(url, '?'), if '?' in url then ReadParameters(Split(Behind(url, '?'), '&')) else [])
  }

  function AllSlashed(pars: seq<Parameter>): (r: seq<Parameter>)
    ensures |r| == |pars|
    ensures forall i :: 0 <= i < |pars| ==> r[i] == Parameter(Slashed(pars[i].name), Slashed(pars[i].value))
  {
    if pars == [] then [] else [Parameter(Slashed(pars[0].name), Slashed(pars[0].value))] + AllSlashed(pars[1..])
  }

  lemma ReadRendered(p: Parameter)
    ensures ReadParameter(Rendered(p)) == Parameter(Slashed(p.name), Slashed(p.value))
    ensures '&' !in Rendered(p)
  {
    var name, value := Encoded(p.name, true), Encoded(p.value, true);
    EncodedLacks(p.name, '=');
    EncodedLacks(p.name, '&');
    EncodedLacks(p.value, '&');
    assert Rendered(p) == name + ['='] + ("\"" + value + "\"");
    CutFirst(name, '=', "\"" + value + "\"");
    assert ("\"" + value + "\"")[1..|value| + 1] == value;
    DecodesBack(p.name, true);
    DecodesBack(p.value, true);
  }

  lemma {:induction false} ReadAllRendered(pars: seq<Parameter>)
    ensures ReadParameters(AllRendered(pars)) == AllSlashed(pars)
    ensures forall part :: part in AllRendered(pars) ==> '&' !in part
  {
    if pars != [] {
      ReadRendered(pars[0]);
      ReadAllRendered(pars[1..]);
    }
  }

  lemma {:induction false} JoinSnoc(parts: seq<string>, sep: string, last: string)
    requires parts != []
    ensures Join(parts + [last], sep) == Join(parts, sep) + sep + last
  {
    if |parts| > 1 {
      assert (parts + [last])[1..] == parts[1..] + [last];
      JoinSnoc(parts[1..], sep, last);
    }
  }

  lemma {:induction false} AssembleShape(cmd: string, parts: seq<string>)
    requires parts != []
    ensures Assemble(cmd, parts) == cmd + ['?'] + Join(parts, ['&'])
  {
    var front, last := parts[..|parts| - 1], parts[|parts| - 1];
    if front != [] {
      AssembleShape(cmd, front);
      JoinSnoc(front, "&", last);
      assert parts == front + [last];
    }
  }

  /** A command without question mark and all its parameters, in order, come
      back from the URL, but for backslashes. */
  lemma UrlReadsBack(cmd: string, pars: seq<Parameter>)
    requires '?' !in cmd
    ensures Read(Url(cmd, pars)) == Request(cmd, AllSlashed(pars))
  {
    CutFirst(cmd, '?', "");
    if pars != [] {
      AssembleShape(cmd, AllRendered(pars));
      var query := Join(AllRendered(pars), ['&']);
      assert Url(cmd, pars)[|cmd|] == '?';
      CutFirst(cmd, '?', query);
      ReadAllRendered(pars);
      SplitJoin(AllRendered(pars), '&');
    }
  }

  ghost predicate BackslashFree(pars: seq<Parameter>) {
    forall p :: p in pars ==> '\\' !in p.name && '\\' !in p.value
  }

  lemma AllSlashedIdentity(pars: seq<Parameter>)
    ensures AllSlashed(pars) == pars <==> BackslashFree(pars)
  {
    forall i | 0 <= i < |pars|
      ensures AllSlashed(pars)[i] == pars[i] <==> '\\' !in pars[i].name && '\\' !in pars[i].value
    {
      SlashedIdentity(pars[i].name);
      SlashedIdentity(pars[i].value);
    }
  }

  /** The URL says exactly what was meant if and only if the command has no
      question mark and the parameters have no backslash. */
  lemma UrlFaithfulExactly(cmd: string, pars: seq<Parameter>)
    ensures Read(Url(cmd, pars)) == Request(cmd, pars) <==> '?' !in cmd && BackslashFree(pars)
  {
    BeforeLacks(Url(cmd, pars), '?');
    if '?' !in cmd {
      UrlReadsBack(cmd, pars);
      AllSlashedIdentity(pars);
    }
  }
}
