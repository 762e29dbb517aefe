/**
 * The URL layer of a shared link (src/App.tsx): `encodeURIComponent` when
 * the link is made, and on opening `URLSearchParams.get("code")` followed by
 * `decodeURIComponent`.  The codec works on the JSON text that carries the
 * three codes; the JSON layer itself is left out.
 *
 * Only ASCII text is modelled: `encodeURIComponent` writes a character at or
 * above 0x80 as several UTF-8 escapes, and the decoders here read each escape
 * as the character of that byte value.
 */
module UrlCodec {
  import opened Wrappers
  import opened Strings

  /** Every character is below 0x80. */
  predicate IsAscii(s: string)
  {
    forall i :: 0 <= i < |s| ==> s[i] < 128 as char
  }

  /** The characters `encodeURIComponent` leaves as they are. */
  predicate Unreserved(c: char)
  {
    'A' <= c <= 'Z' || 'a' <= c <= 'z' || '0' <= c <= '9' || c in "-_.!~*'()"
  }

  predicate IsHex(c: char)
  {
    '0' <= c <= '9' || 'A' <= c <= 'F' || 'a' <= c <= 'f'
  }

  function HexValue(c: char): (n: nat)
    requires IsHex(c)
    ensures n < 16
  {
    if '0' <= c <= '9' then c as int - '0' as int
    else if 'A' <= c <= 'F' then c as int - 'A' as int + 10
    else c as int - 'a' as int + 10
  }

  /** An upper-case hexadecimal digit, which reads back as its value. */
  function HexDigit(n: nat): (c: char)
    requires n < 16
    ensures IsHex(c) && Unreserved(c) && HexValue(c) == n
  {
    if n < 10 then ('0' as int + n) as char else ('A' as int + n - 10) as char
  }

  /** The character an escape `%hl` stands for. */
  function EscapedChar(h: char, l: char): char
    requires IsHex(h) && IsHex(l)
  {
    (HexValue(h) * 16 + HexValue(l)) as char
  }

  /** One character as `encodeURIComponent` writes it. */
  function EscapeChar(c: char): (r: string)
    requires c < 128 as char
    ensures forall i :: 0 <= i < |r| ==> Unreserved(r[i]) || r[i] == '%'
  {
    if Unreserved(c) then [c]
    else ['%', HexDigit(c as int / 16), HexDigit(c as int % 16)]
  }

  /**
   * `encodeURIComponent`: the result holds only unreserved characters and
   * '%', so no '&', '=', '+' or '#' that would split or alter a query.
   */
  function Encode(s: string): (r: string)
    requires IsAscii(s)
    ensures forall i :: 0 <= i < |r| ==> Unreserved(r[i]) || r[i] == '%'
  {
    if s == [] then []
    else EscapeChar(s[0]) + Encode(s[1..])
  }

  /**
   * The lenient decoding of a form-encoded name or value that
   * `URLSearchParams` applies: '+' is a space, a well-formed escape is its
   * character, and anything else, a lone '%' included, stays as it is.
   */
  function FormDecode(s: string): string
  {
    if s == [] then []
    else if s[0] == '+' then " " + FormDecode(s[1..])
    else if s[0] == '%' && |s| >= 3 && IsHex(s[1]) && IsHex(s[2]) then
      [EscapedChar(s[1], s[2])] + FormDecode(s[3..])
    else [s[0]] + FormDecode(s[1..])
  }

  /**
   * `decodeURIComponent`: None where it throws URIError, at a '%' not
   * followed by two hexadecimal digits.  The result is never longer than
   * the input, as long only when there was nothing to decode, and the input
   * itself when it holds no '%'.
   */
  function DecodeComponent(s: string): (r: Option<string>)
    ensures r.Some? ==> |r.value| <= |s|
    ensures r.Some? && |r.value| == |s| ==> '%' !in s
    ensures '%' !in s ==> r == Some(s)
  {
    if s == [] then Some([])
    else if s[0] == '%' then
      if |s| >= 3 && IsHex(s[1]) && IsHex(s[2]) then
        match DecodeComponent(s[3..])
        case None => None
        case Some(t) => Some([EscapedChar(s[1], s[2])] + t)
      else None
    else
      assert '%' !in s ==> '%' !in s[1..] && s == [s[0]] + s[1..];
      match DecodeComponent(s[1..])
      case None => None
      case Some(t) => Some([s[0]] + t)
  }

  /** The value of the first `name=value` pair of a query with the given name. */
  function FirstValue(pairs: seq<string>, name: string): Option<string>
  {
    if pairs == [] then None
    else
      var parts := Split(pairs[0], '=');
      if pairs[0] != "" && FormDecode(parts[0]) == name then
        Some(FormDecode(Join(parts[1..], '=')))
      else FirstValue(pairs[1..], name)
  }

  /** `new URLSearchParams(search).get(name)`: the leading '?' is dropped and pairs are split at '&'. */
  function SearchParam(search: string, name: string): Option<string>
  {
    var query := if |search| > 0 && search[0] == '?' then search[1..] else search;
    FirstValue(Split(query, '&'), name)
  }

  /** The query of a shared link, `?code=` and the encoded text. */
  function ShareSearch(text: string): string
    requires IsAscii(text)
  {
    "?code=" + Encode(text)
  }

  /** The text the page parses as it is written: decoded by `get`, then by `decodeURIComponent`; None is the URIError. */
  function OpenedTextAsWritten(search: string): Option<string>
  {
    DecodeComponent(SearchParam(search, "code").GetOr("{}"))
  }

  /** The text decoded once, by `get` alone, with "{}" for a missing parameter. */
  function OpenedText(search: string): string
  {
    SearchParam(search, "code").GetOr("{}")
  }

  /** Decoding an encoded character leaves the rest of the text to be decoded. */
  lemma FormDecodeEscape(c: char, t: string)
    requires c < 128 as char
    ensures FormDecode(EscapeChar(c) + t) == [c] + FormDecode(t)
  {
    var e := EscapeChar(c) + t;
    if Unreserved(c) {
      assert e[0] == c && e[1..] == t;
    } else {
      assert e[0] == '%' && e[1] == HexDigit(c as int / 16) && e[2] == HexDigit(c as int % 16);
      assert e[3..] == t;
    }
  }

  /** Form decoding undoes `encodeURIComponent`. */
  lemma {:induction false} FormDecodeEncode(s: string)
    requires IsAscii(s)
    ensures FormDecode(Encode(s)) == s
  {
    if s != [] {
      assert IsAscii(s[1..]);
      FormDecodeEncode(s[1..]);
      FormDecodeEscape(s[0], Encode(s[1..]));
    }
  }

  /** A query `?name=value` whose value holds no '&' or '=' has one pair. */
  lemma SearchParamOfPair(name: string, value: string)
    requires '&' !in name && '=' !in name && '&' !in value && '=' !in value
    requires name != "" && FormDecode(name) == name
    ensures SearchParam("?" + name + "=" + value, name) == Some(FormDecode(value))
  {
    var query := name + "=" + value;
    assert ("?" + name + "=" + value)[1..] == query;
    assert '&' !in query by {
      assert query == name + ['='] + value;
    }
    SplitWithoutSeparator(query, '&');
    assert query == name + ['='] + value;
    SplitAround(name, value, '=');
    SplitWithoutSeparator(name, '=');
    SplitWithoutSeparator(value, '=');
    assert Split(query, '=') == [name, value];
  }

  /** The link's query has one pair, and `get("code")` reads back its form-decoded value. */
  lemma SearchParamOfShare(text: string)
    requires IsAscii(text)
    ensures SearchParam(ShareSearch(text), "code") == Some(FormDecode(Encode(text)))
  {
    var e := Encode(text);
    assert '&' !in e && '=' !in e by {
      assert forall i :: 0 <= i < |e| ==> e[i] != '&' && e[i] != '=';
    }
    assert FormDecode("code") == "code";
    assert ShareSearch(text) == "?" + "code" + "=" + e;
    SearchParamOfPair("code", e);
  }

  /** Opening a shared link with a single decoding gives back the shared text. */
  lemma OpenedTextRoundTrip(text: string)
    requires IsAscii(text)
    ensures OpenedText(ShareSearch(text)) == text
  {
    SearchParamOfShare(text);
    FormDecodeEncode(text);
  }

  /**
   * As written, the page gives back the shared text exactly when the text
   * holds no '%'; otherwise it throws or decodes the text a second time.
   */
  lemma AsWrittenRoundTripIffNoPercent(text: string)
    requires IsAscii(text)
    ensures OpenedTextAsWritten(ShareSearch(text)) == Some(text) <==> '%' !in text
  {
    OpenedTextRoundTrip(text);
    SearchParamOfShare(text);
    assert OpenedTextAsWritten(ShareSearch(text)) == DecodeComponent(text);
  }

  /** CSS such as `100%` makes the opened link throw URIError; a single decoding restores it. */
  lemma AsWrittenThrowsOnPercent()
    ensures OpenedTextAsWritten(ShareSearch("100%")).None?
    ensures OpenedText(ShareSearch("100%")) == "100%"
  {
    OpenedTextRoundTrip("100%");
    SearchParamOfShare("100%");
    assert DecodeComponent("%") == None;
    assert DecodeComponent("100%") == None;
  }

  /** The text `%41` comes back as `A`. */
  lemma AsWrittenDecodesTwice()
    ensures OpenedTextAsWritten(ShareSearch("%41")) == Some("A")
  {
    OpenedTextRoundTrip("%41");
    SearchParamOfShare("%41");
    var s := "%41";
    assert s[0] == '%' && s[1] == '4' && s[2] == '1' && s[3..] == [];
    assert DecodeComponent(s[3..]) == Some([]);
    assert EscapedChar('4', '1') == 'A';
    assert DecodeComponent(s) == Some([EscapedChar(s[1], s[2])] + []);
    assert [EscapedChar(s[1], s[2])] + [] == "A";
  }
}
