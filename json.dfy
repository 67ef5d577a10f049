/** `JSON.stringify(products)` for the product array that handleSaveProduct
    writes to storage, modelled on the ECMAScript definitions of
    JSON.stringify and QuoteJSONString, together with Deserialize, which inverts
    the writer on its own output. Deserialize is not in the program; it exists
    only to prove that Serialize loses nothing: Deserialize(Serialize(ps)) ==
    Some(ps), and so Serialize is injective. */
module Json {
  import opened Wrappers
  import opened Products

  // ---------------------------------------------------------------------
  // Hexadecimal digits of \u escapes
  // ---------------------------------------------------------------------

  /** Value of a hexadecimal digit of either case. */
  function HexValue(c: char): (r: Option<nat>)
    ensures r.Some? ==> r.value < 16
  {
    if '0' <= c <= '9' then Some(c as int - '0' as int)
    else if 'a' <= c <= 'f' then Some(c as int - 'a' as int + 10)
    else if 'A' <= c <= 'F' then Some(c as int - 'A' as int + 10)
    else None
  }

  /** The lower-case digit that QuoteJSONString writes for `n`. */
  function HexDigit(n: nat): (c: char)
    requires n < 16
    ensures HexValue(c) == Some(n)
    ensures '0' <= c <= '9' || 'a' <= c <= 'f'
  {
    if n < 10 then ('0' as int + n) as char else ('a' as int + n - 10) as char
  }

  // ---------------------------------------------------------------------
  // Writing strings
  // ---------------------------------------------------------------------

  /** How QuoteJSONString writes one code point: the seven short escapes,
      `\u00xx` for the remaining control characters, the character itself
      otherwise. */
  function EscapeChar(c: char): (e: string)
    ensures 1 <= |e| <= 6
    ensures e[0] == '\\' || e == [c]
  {
    var n := c as int;
    if c == '"' then ['\\', '"']
    else if c == '\\' then ['\\', '\\']
    else if n == 0x08 then ['\\', 'b']
    else if n == 0x0C then ['\\', 'f']
    else if c == '\n' then ['\\', 'n']
    else if c == '\r' then ['\\', 'r']
    else if c == '\t' then ['\\', 't']
    else if n < 0x20 then ['\\', 'u', '0', '0', HexDigit(n / 16), HexDigit(n % 16)]
    else [c]
  }

  /** The escaped characters of a string, never shorter than the string. */
  function EscapeString(s: string): (e: string)
    ensures |e| >= |s|
  {
    if s == [] then [] else EscapeChar(s[0]) + EscapeString(s[1..])
  }

  /** No control character is left unescaped in the written text. */
  lemma {:induction false} EscapeStringPrintable(s: string)
    ensures forall i :: 0 <= i < |EscapeString(s)| ==> EscapeString(s)[i] as int >= 0x20
  {
    if s != [] {
      EscapeStringPrintable(s[1..]);
      var e, t := EscapeChar(s[0]), EscapeString(s[1..]);
      assert EscapeString(s) == e + t;
    }
  }

  /** A string value as JSON text: quoted and escaped. */
  function Quote(s: string): (q: string)
    ensures |q| >= |s| + 2 && q[0] == '"' && q[|q| - 1] == '"'
  {
    ['"'] + EscapeString(s) + ['"']
  }

  // ---------------------------------------------------------------------
  // Reading strings
  // ---------------------------------------------------------------------

  /** Reads one escape sequence, the backslash already consumed. */
  function ParseEscape(s: string): (r: Option<(char, string)>)
    ensures r.Some? ==> |r.value.1| < |s|
  {
    if |s| == 0 then None
    else if s[0] == '"' then Some(('"', s[1..]))
    else if s[0] == '\\' then Some(('\\', s[1..]))
    else if s[0] == '/' then Some(('/', s[1..]))
    else if s[0] == 'b' then Some((0x08 as char, s[1..]))
    else if s[0] == 'f' then Some((0x0C as char, s[1..]))
    else if s[0] == 'n' then Some(('\n', s[1..]))
    else if s[0] == 'r' then Some(('\r', s[1..]))
    else if s[0] == 't' then Some(('\t', s[1..]))
    else if s[0] == 'u' && |s| >= 5 then
      var a :- HexValue(s[1]);
      var b :- HexValue(s[2]);
      var c :- HexValue(s[3]);
      var d :- HexValue(s[4]);
      var code := ((a * 16 + b) * 16 + c) * 16 + d;
      if 0xD800 <= code < 0xE000 then None else Some((code as char, s[5..]))
    else None
  }

  /** Puts `c` in front of the string a successful read returned. */
  function Cons(c: char, r: Option<(string, string)>): Option<(string, string)>
  {
    match r
    case None => None
    case Some((t, rest)) => Some(([c] + t, rest))
  }

  /** Reads the characters of a string up to its closing quote, which is
      consumed; a raw control character is not valid JSON text. */
  function ParseStringBody(s: string): (r: Option<(string, string)>)
    ensures r.Some? ==> |r.value.1| < |s|
    decreases |s|
  {
    if |s| == 0 then None
    else if s[0] == '"' then Some(([], s[1..]))
    else if s[0] == '\\' then
      match ParseEscape(s[1..])
      case None => None
      case Some((c, rest)) => Cons(c, ParseStringBody(rest))
    else if (s[0] as int) < 0x20 then None
    else Cons(s[0], ParseStringBody(s[1..]))
  }

  /** Reads a quoted string. */
  function ParseQuoted(s: string): (r: Option<(string, string)>)
    ensures r.Some? ==> |r.value.1| < |s|
  {
    if |s| > 0 && s[0] == '"' then ParseStringBody(s[1..]) else None
  }

  /** Each character reads back as itself, whichever way it was written. */
  lemma EscapeCharRead(c: char, tail: string)
    ensures ParseStringBody(EscapeChar(c) + tail) == Cons(c, ParseStringBody(tail))
  {
  }

  lemma {:induction false} StringRoundTrip(str: string, rest: string)
    ensures ParseStringBody(EscapeString(str) + ['"'] + rest) == Some((str, rest))
  {
    if str == [] {
      assert EscapeString(str) + ['"'] + rest == ['"'] + rest;
      assert (['"'] + rest)[1..] == rest;
    } else {
      var t := EscapeString(str[1..]) + ['"'] + rest;
      assert EscapeString(str) + ['"'] + rest == EscapeChar(str[0]) + t;
      EscapeCharRead(str[0], t);
      StringRoundTrip(str[1..], rest);
      assert [str[0]] + str[1..] == str;
    }
  }

  /** Reading a quoted string back gives the string and leaves what follows. */
  lemma QuotedRoundTrip(str: string, rest: string)
    ensures ParseQuoted(Quote(str) + rest) == Some((str, rest))
  {
    hide ParseStringBody, EscapeString;
    assert Quote(str) + rest == ['"'] + (EscapeString(str) + ['"'] + rest);
    StringRoundTrip(str, rest);
  }

  // ---------------------------------------------------------------------
  // Products
  // ---------------------------------------------------------------------

  /** The key texts of the product object, each with the punctuation before it. */
  const ImageUriField := "{\"imageUri\":"
  const ProductNameField := ",\"productName\":"
  const ProductAmountField := ",\"productAmount\":"

  /** A key followed by a quoted string value. */
  function Field(key: string, value: string): string
  {
    key + Quote(value)
  }

  /** One product record as JSON.stringify writes it: keys in insertion order,
      no white space. */
  function EncodeProduct(p: Product): (r: string)
    ensures ImageUriField <= r && r[|r| - 1] == '}'
  {
    Field(ImageUriField, p.imageUri) + Field(ProductNameField, p.productName)
      + Field(ProductAmountField, p.productAmount) + "}"
  }

  /** What follows `prefix` in `s`, if `s` starts with it. */
  function StripPrefix(prefix: string, s: string): (r: Option<string>)
    ensures r.Some? ==> |r.value| <= |s|
  {
    if prefix <= s then Some(s[|prefix|..]) else None
  }

  lemma StripPrefixOfConcat(prefix: string, t: string)
    ensures StripPrefix(prefix, prefix + t) == Some(t)
  {
  }

  /** Reads `key` and then a quoted string. */
  function ParseField(key: string, s: string): (r: Option<(string, string)>)
    ensures r.Some? ==> |r.value.1| < |s|
  {
    var s1 :- StripPrefix(key, s);
    ParseQuoted(s1)
  }

  lemma FieldRoundTrip(key: string, value: string, rest: string)
    ensures ParseField(key, Field(key, value) + rest) == Some((value, rest))
  {
    hide ParseQuoted, Quote, StripPrefix;
    assert Field(key, value) + rest == key + (Quote(value) + rest);
    StripPrefixOfConcat(key, Quote(value) + rest);
    QuotedRoundTrip(value, rest);
  }

  function ParseProduct(s: string): (r: Option<(Product, string)>)
    ensures r.Some? ==> |r.value.1| < |s|
  {
    var f1 :- ParseField(ImageUriField, s);
    var f2 :- ParseField(ProductNameField, f1.1);
    var f3 :- ParseField(ProductAmountField, f2.1);
    var s4 :- StripPrefix("}", f3.1);
    Some((Product(f1.0, f2.0, f3.0), s4))
  }

  lemma ProductRoundTrip(p: Product, rest: string)
    ensures ParseProduct(EncodeProduct(p) + rest) == Some((p, rest))
  {
    hide ParseField, Field, StripPrefix;
    var t3 := "}" + rest;
    var t2 := Field(ProductAmountField, p.productAmount) + t3;
    var t1 := Field(ProductNameField, p.productName) + t2;
    var s := EncodeProduct(p) + rest;
    assert s == Field(ImageUriField, p.imageUri) + t1;
    FieldRoundTrip(ImageUriField, p.imageUri, t1);
    FieldRoundTrip(ProductNameField, p.productName, t2);
    FieldRoundTrip(ProductAmountField, p.productAmount, t3);
    StripPrefixOfConcat("}", rest);
  }

  // ---------------------------------------------------------------------
  // Product lists
  // ---------------------------------------------------------------------

  /** Each element serialised on its own, as SerializeJSONArray collects them. */
  function EncodeAll(ps: seq<Product>): seq<string>
  {
    seq(|ps|, i requires 0 <= i < |ps| => EncodeProduct(ps[i]))
  }

  /** The element texts separated by commas. */
  function Join(es: seq<string>): (r: string)
    ensures es != [] ==> es[0] <= r
  {
    if es == [] then ""
    else if |es| == 1 then es[0]
    else es[0] + "," + Join(es[1..])
  }

  /** SerializeJSONArray without indentation: `[]`, or the joined elements in brackets. */
  function SerializeArray(es: seq<string>): (r: string)
    ensures |r| >= 2 && r[0] == '[' && r[|r| - 1] == ']'
  {
    if es == [] then "[]" else "[" + Join(es) + "]"
  }

  /** `JSON.stringify(ps)`. */
  function Serialize(ps: seq<Product>): (r: string)
    ensures |r| >= 2 && r[0] == '[' && r[|r| - 1] == ']'
    ensures r == "[]" <==> ps == []
  {
    SerializeArray(EncodeAll(ps))
  }

  function ParseItems(s: string): Option<seq<Product>>
    decreases |s|
  {
    var (p, rest) :- ParseProduct(s);
    if rest == "]" then Some([p])
    else if |rest| > 0 && rest[0] == ',' then
      var more :- ParseItems(rest[1..]);
      Some([p] + more)
    else None
  }

  /** Reads the text Serialize writes back into a product list. */
  function Deserialize(s: string): Option<seq<Product>>
  {
    if s == "[]" then Some([])
    else if |s| > 0 && s[0] == '[' then ParseItems(s[1..])
    else None
  }

  /** Every element text reads back as its product, whatever follows it. */
  ghost predicate ReadsBack(ps: seq<Product>, es: seq<string>)
  {
    && |es| == |ps|
    && forall i, rest :: 0 <= i < |es| ==> ParseProduct(es[i] + rest) == Some((ps[i], rest))
  }

  lemma EncodeAllReadsBack(ps: seq<Product>)
    ensures ReadsBack(ps, EncodeAll(ps))
  {
    var es := EncodeAll(ps);
    forall i, rest | 0 <= i < |es|
      ensures ParseProduct(es[i] + rest) == Some((ps[i], rest))
    {
      ProductRoundTrip(ps[i], rest);
    }
  }

  lemma ParseItemsLast(s: string, p: Product)
    requires ParseProduct(s) == Some((p, "]"))
    ensures ParseItems(s) == Some([p])
  {
  }

  lemma ParseItemsMore(s: string, p: Product, tail: string, more: seq<Product>)
    requires ParseProduct(s) == Some((p, "," + tail))
    requires ParseItems(tail) == Some(more)
    ensures ParseItems(s) == Some([p] + more)
  {
    assert ("," + tail)[1..] == tail;
  }

  lemma {:induction false} ItemsRoundTrip(ps: seq<Product>, es: seq<string>)
    requires ReadsBack(ps, es) && es != []
    ensures ParseItems(Join(es) + "]") == Some(ps)
  {
    hide ParseProduct, ParseItems;
    if |es| == 1 {
      assert Join(es) == es[0];
      ParseItemsLast(es[0] + "]", ps[0]);
      assert ps == [ps[0]];
    } else {
      var tail := Join(es[1..]) + "]";
      assert Join(es) + "]" == es[0] + ("," + tail);
      assert ReadsBack(ps[1..], es[1..]) by {
        forall i, rest | 0 <= i < |es| - 1
          ensures ParseProduct(es[1..][i] + rest) == Some((ps[1..][i], rest))
        {
          assert es[1..][i] == es[i + 1];
        }
      }
      ItemsRoundTrip(ps[1..], es[1..]);
      ParseItemsMore(es[0] + ("," + tail), ps[0], tail, ps[1..]);
      assert [ps[0]] + ps[1..] == ps;
    }
  }

  lemma ReadNonEmptyList(s: string)
    requires |s| > 2 && s[0] == '['
    ensures Deserialize(s) == ParseItems(s[1..])
  {
  }

  lemma ArrayRoundTrip(ps: seq<Product>, es: seq<string>)
    requires ReadsBack(ps, es)
    ensures Deserialize(SerializeArray(es)) == Some(ps)
  {
    hide ParseProduct, ParseItems;
    if es != [] {
      var s := SerializeArray(es);
      assert ParseProduct(es[0] + "") == Some((ps[0], ""));
      assert es[0] + "" == es[0];
      assert |Join(es)| >= |es[0]| > 0;
      assert s[1..] == Join(es) + "]";
      ReadNonEmptyList(s);
      ItemsRoundTrip(ps, es);
    }
  }

  /** The stored text reads back as exactly the list that was written. */
  lemma SerializeRoundTrip(ps: seq<Product>)
    ensures Deserialize(Serialize(ps)) == Some(ps)
  {
    EncodeAllReadsBack(ps);
    ArrayRoundTrip(ps, EncodeAll(ps));
  }

  /** Different lists are written as different text. */
  lemma SerializeInjective(ps: seq<Product>, qs: seq<Product>)
    ensures Serialize(ps) == Serialize(qs) ==> ps == qs
  {
    SerializeRoundTrip(ps);
    SerializeRoundTrip(qs);
  }
}
