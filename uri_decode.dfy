/**
 * Decoding of the object key carried by an S3 notification: every literal
 * `+` becomes a space, then `decodeURIComponent` resolves `%XX` escapes
 * (section 2.1 of RFC 3986). A `%` not followed by two hexadecimal digits
 * makes `decodeURIComponent` throw a URIError.
 *
 * An escape `%XX` yields the character whose code is XX; UTF-8 sequences of
 * several escapes are not combined into one character.
 */
module UriDecode {
  import opened Wrappers
  import opened JsString

  const URI_ERROR := "URIError: URI malformed"

  predicate IsHexDigit(c: char) {
    ('0' <= c <= '9') || ('a' <= c <= 'f') || ('A' <= c <= 'F')
  }

  function HexValue(c: char): (v: nat)
    requires IsHexDigit(c)
    ensures v < 16
  {
    if '0' <= c <= '9' then c as int - '0' as int
    else if 'a' <= c <= 'f' then c as int - 'a' as int + 10
    else c as int - 'A' as int + 10
  }

  /** The upper-case hexadecimal digit of `n`. */
  function HexDigit(n: nat): (c: char)
    requires n < 16
    ensures IsHexDigit(c) && HexValue(c) == n
  {
    if n < 10 then ('0' as int + n) as char else ('A' as int + n - 10) as char
  }

  /** Every `%` in `s` starts an escape: it is followed by two hexadecimal digits. */
  ghost predicate WellFormed(s: string) {
    forall i :: 0 <= i < |s| && s[i] == '%' ==> i + 2 < |s| && IsHexDigit(s[i + 1]) && IsHexDigit(s[i + 2])
  }

  /** `decodeURIComponent(s)`: every escape `%XX` is replaced by the character with code XX. */
  function DecodeUriComponent(s: string): (r: Result<string, string>)
    ensures r.Ok? ==> |r.value| <= |s|
    ensures r.Err? ==> r.error == URI_ERROR
    decreases |s|
  {
    if |s| == 0 then Ok("")
    else if s[0] != '%' then
      match DecodeUriComponent(s[1..])
      case Ok(t) => Ok([s[0]] + t)
      case Err(e) => Err(e)
    else if |s| >= 3 && IsHexDigit(s[1]) && IsHexDigit(s[2]) then
      match DecodeUriComponent(s[3..])
      case Ok(t) => Ok([(16 * HexValue(s[1]) + HexValue(s[2])) as char] + t)
      case Err(e) => Err(e)
    else Err(URI_ERROR)
  }

  /** The handlers' key decoding: `decodeURIComponent(key.replace(/\+/g, " "))`. */
  function DecodeKey(rawKey: string): (r: Result<string, string>)
    ensures r.Ok? ==> |r.value| <= |rawKey|
    ensures r.Err? ==> r.error == URI_ERROR
  {
    DecodeUriComponent(PlusToSpace(rawKey))
  }

  /** Decoding fails exactly when some `%` does not start a complete escape. */
  lemma {:induction false} DecodeOkIff(s: string)
    ensures DecodeUriComponent(s).Ok? <==> WellFormed(s)
    ensures DecodeUriComponent(s).Err? ==> DecodeUriComponent(s).error == URI_ERROR
    decreases |s|
  {
    if |s| == 0 {
    } else if s[0] != '%' {
      DecodeOkIff(s[1..]);
      WellFormedTail(s, 1);
    } else if |s| >= 3 && IsHexDigit(s[1]) && IsHexDigit(s[2]) {
      DecodeOkIff(s[3..]);
      WellFormedTail(s, 3);
    } else {
      assert !WellFormed(s) by { assert s[0] == '%'; }
    }
  }

  /** Past a prefix of `k` characters holding no `%` other than complete escapes, well-formedness is that of the rest. */
  lemma WellFormedTail(s: string, k: nat)
    requires k <= |s|
    requires forall i :: 0 <= i < k && s[i] == '%' ==> i + 2 < k && IsHexDigit(s[i + 1]) && IsHexDigit(s[i + 2])
    ensures WellFormed(s) <==> WellFormed(s[k..])
  {
    if WellFormed(s[k..]) {
      forall i | 0 <= i < |s| && s[i] == '%'
        ensures i + 2 < |s| && IsHexDigit(s[i + 1]) && IsHexDigit(s[i + 2])
      {
        if i >= k { assert s[k..][i - k] == s[i]; }
      }
    }
    if WellFormed(s) {
      forall j | 0 <= j < |s[k..]| && s[k..][j] == '%'
        ensures j + 2 < |s[k..]| && IsHexDigit(s[k..][j + 1]) && IsHexDigit(s[k..][j + 2])
      {
        assert s[k + j] == '%';
      }
    }
  }

  /** A decodable prefix is decoded independently of what follows it. */
  lemma {:induction false} DecodeAppend(a: string, b: string)
    requires DecodeUriComponent(a).Ok?
    ensures DecodeUriComponent(a + b) ==
      match DecodeUriComponent(b)
      case Ok(t) => Ok(DecodeUriComponent(a).value + t)
      case Err(e) => Err(e)
    decreases |a|
  {
    if |a| == 0 {
      assert a + b == b;
      match DecodeUriComponent(b) {
        case Ok(t) => assert DecodeUriComponent(a).value + t == t;
        case Err(_) =>
      }
    } else if a[0] != '%' {
      assert (a + b)[0] == a[0] && (a + b)[1..] == a[1..] + b;
      DecodeAppend(a[1..], b);
      match DecodeUriComponent(b) {
        case Ok(t) =>
          assert [a[0]] + (DecodeUriComponent(a[1..]).value + t) == ([a[0]] + DecodeUriComponent(a[1..]).value) + t;
        case Err(_) =>
      }
    } else {
      assert (a + b)[..3] == a[..3] && (a + b)[3..] == a[3..] + b;
      DecodeAppend(a[3..], b);
      match DecodeUriComponent(b) {
        case Ok(t) =>
          var c := (16 * HexValue(a[1]) + HexValue(a[2])) as char;
          assert [c] + (DecodeUriComponent(a[3..]).value + t) == ([c] + DecodeUriComponent(a[3..]).value) + t;
        case Err(_) =>
      }
    }
  }

  /** A string holding no `%` decodes to itself. */
  lemma {:induction false} DecodeWithoutEscapes(s: string)
    requires '%' !in s
    ensures DecodeUriComponent(s) == Ok(s)
    decreases |s|
  {
    if |s| > 0 {
      assert s[0] != '%';
      DecodeWithoutEscapes(s[1..]);
      assert [s[0]] + s[1..] == s;
    }
  }

  /** A key holding no escape decodes to itself with every `+` turned into a space. */
  lemma DecodeKeyWithoutEscapes(rawKey: string)
    requires '%' !in rawKey
    ensures DecodeKey(rawKey) == Ok(PlusToSpace(rawKey))
    ensures '+' !in DecodeKey(rawKey).value
  {
    var k := PlusToSpace(rawKey);
    assert '%' !in k by {
      forall i | 0 <= i < |k| ensures k[i] != '%' { assert rawKey[i] != '%'; }
    }
    DecodeWithoutEscapes(k);
  }

  /** The ASCII characters the model's key encoder leaves unescaped. */
  predicate IsUnreserved(c: char) {
    ('A' <= c <= 'Z') || ('a' <= c <= 'z') || ('0' <= c <= '9') || c == '-' || c == '_' || c == '.' || c == '~'
  }

  /**
   * The model's key encoder, one character at a time: a space becomes `+`,
   * a character below 256 that is not unreserved becomes a single `%XX`,
   * and every other character stays as it is. It is the model's own
   * encoder, chosen so that the handlers' decoding undoes it; it is not
   * claimed to be the encoding S3 applies to notification keys.
   */
  function EncodeKeyChar(c: char): string {
    if c == ' ' then "+"
    else if IsUnreserved(c) || c as int >= 256 then [c]
    else "%" + [HexDigit(c as int / 16), HexDigit(c as int % 16)]
  }

  function EncodeKey(key: string): string {
    if |key| == 0 then "" else EncodeKeyChar(key[0]) + EncodeKey(key[1..])
  }

  lemma DecodeKeyChar(c: char)
    ensures DecodeUriComponent(PlusToSpace(EncodeKeyChar(c))) == Ok([c])
  {
    var e := EncodeKeyChar(c);
    if c == ' ' {
      assert PlusToSpace(e) == " ";
      assert DecodeUriComponent(" "[1..]) == Ok("");
    } else if IsUnreserved(c) || c as int >= 256 {
      assert PlusToSpace(e) == [c];
      assert DecodeUriComponent([c][1..]) == Ok("");
    } else {
      var hi, lo := HexDigit(c as int / 16), HexDigit(c as int % 16);
      assert e == ['%', hi, lo];
      PlusToSpaceWithoutPlus(e);
      assert e[3..] == "";
      assert HexValue(hi) == c as int / 16 && HexValue(lo) == c as int % 16;
      assert 16 * (c as int / 16) + c as int % 16 == c as int;
      assert (16 * HexValue(e[1]) + HexValue(e[2])) as char == c;
      assert DecodeUriComponent(e[3..]) == Ok("");
      assert DecodeUriComponent(e) == Ok([c] + "");
      assert [c] + "" == [c];
    }
  }

  /** Decoding the handlers' way undoes `EncodeKey` for every key. */
  lemma {:induction false} DecodeKeyInverse(key: string)
    ensures DecodeKey(EncodeKey(key)) == Ok(key)
    decreases |key|
  {
    if |key| == 0 {
    } else {
      var head, tail := EncodeKeyChar(key[0]), EncodeKey(key[1..]);
      PlusToSpaceAppend(head, tail);
      DecodeKeyChar(key[0]);
      DecodeAppend(PlusToSpace(head), PlusToSpace(tail));
      DecodeKeyInverse(key[1..]);
      assert [key[0]] + key[1..] == key;
    }
  }

  /** A literal `+` in the raw key decodes to a space. */
  lemma LiteralPlusIsSpace()
    ensures DecodeKey("a+b") == Ok("a b")
  {
    DecodeKeyWithoutEscapes("a+b");
    assert PlusToSpace("a+b") == "a b";
  }

  /** An escaped `%2B` decodes to a literal `+`. */
  lemma EscapedPlusIsPlus()
    ensures DecodeKey("%2B") == Ok("+")
  {
    var k := "%2B";
    PlusToSpaceWithoutPlus(k);
    assert k[3..] == "";
    assert HexValue(k[1]) == 2 && HexValue(k[2]) == 11;
    assert (16 * 2 + 11) as char == '+';
    assert DecodeUriComponent(k[3..]) == Ok("");
    assert DecodeUriComponent(k) == Ok(['+'] + "");
    assert ['+'] + "" == "+";
    assert DecodeKey(k) == DecodeUriComponent(k);
  }

  /**
   * A `%` that starts no escape makes decoding throw, whatever plain text
   * precedes it: `100%.jpg` is such a key.
   */
  lemma MalformedEscapeThrows(head: string, tail: string)
    requires '%' !in head && '+' !in head && '+' !in tail
    requires |tail| > 0 && tail[0] == '%' && (|tail| < 3 || !IsHexDigit(tail[1]) || !IsHexDigit(tail[2]))
    ensures DecodeKey(head + tail) == Err(URI_ERROR)
  {
    assert '+' !in head + tail;
    PlusToSpaceWithoutPlus(head + tail);
    DecodeWithoutEscapes(head);
    DecodeAppend(head, tail);
  }

  /** Around plain text, an escaped `%2B` decodes to a `+`. */
  lemma EscapedPlusKept(head: string, tail: string)
    requires '%' !in head && '+' !in head && '%' !in tail && '+' !in tail
    ensures DecodeKey(head + "%2B" + tail) == Ok(head + "+" + tail)
  {
    var k := head + "%2B" + tail;
    assert '+' !in "%2B";
    assert '+' !in k;
    PlusToSpaceWithoutPlus(k);
    assert k == head + ("%2B" + tail);
    EscapeOfPlus();
    DecodeWithoutEscapes(head);
    DecodeWithoutEscapes(tail);
    DecodeAppend("%2B", tail);
    DecodeAppend(head, "%2B" + tail);
    assert head + ("+" + tail) == head + "+" + tail;
  }

  /** `%2B` on its own decodes to `+`. */
  lemma EscapeOfPlus()
    ensures DecodeUriComponent("%2B") == Ok("+")
  {
    EscapedPlusIsPlus();
    PlusToSpaceWithoutPlus("%2B");
  }

  /** Around plain text, a literal `+` decodes to a space. */
  lemma LiteralPlusSpaced(head: string, tail: string)
    requires '%' !in head && '+' !in head && '%' !in tail && '+' !in tail
    ensures DecodeKey(head + "+" + tail) == Ok(head + " " + tail)
  {
    PlusToSpaceWithoutPlus(head);
    PlusToSpaceWithoutPlus(tail);
    PlusToSpaceAppend(head + "+", tail);
    PlusToSpaceAppend(head, "+");
    assert PlusToSpace("+") == " ";
    var spaced := head + " " + tail;
    assert PlusToSpace(head + "+" + tail) == spaced;
    assert '%' !in spaced by {
      forall i | 0 <= i < |spaced| ensures spaced[i] != '%' {
        if i < |head| { assert spaced[i] == head[i]; }
        else if i > |head| { assert spaced[i] == tail[i - |head| - 1]; }
      }
    }
    DecodeWithoutEscapes(spaced);
  }

  /**
   * So `user%2Bname-picture-orig.jpg` and `user+name-picture-orig.jpg`
   * name different keys: one holds a `+`, the other a space.
   */
  lemma EscapedVersusLiteralPlus(head: string, tail: string)
    requires '%' !in head && '+' !in head && '%' !in tail && '+' !in tail
    ensures DecodeKey(head + "%2B" + tail) != DecodeKey(head + "+" + tail)
  {
    EscapedPlusKept(head, tail);
    LiteralPlusSpaced(head, tail);
    assert (head + " " + tail)[|head|] != (head + "+" + tail)[|head|];
  }
}
