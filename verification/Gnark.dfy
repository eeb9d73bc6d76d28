/** The decoder of the gnark prover's answer: ten hexadecimal numbers as text, to 320 bytes. */
module Gnark {
  import opened Proofs
  import opened Groth16
  import opened Words

  /** The characters Unicode calls white space, which `trim` removes. */
  predicate IsSpace(c: char) {
    var n := c as int;
    || 0x9 <= n <= 0xD || n == 0x20 || n == 0x85 || n == 0xA0 || n == 0x1680
    || 0x2000 <= n <= 0x200A || n == 0x2028 || n == 0x2029 || n == 0x202F || n == 0x205F || n == 0x3000
  }

  function TrimStart(s: string): string {
    if s != [] && IsSpace(s[0]) then TrimStart(s[1..]) else s
  }

  function TrimEnd(s: string): string {
    if s != [] && IsSpace(s[|s| - 1]) then TrimEnd(s[..|s| - 1]) else s
  }

  function Trim(s: string): string {
    TrimEnd(TrimStart(s))
  }

  /** `strip_prefix('"').unwrap_or(..)` and its counterpart. */
  function StripOpening(s: string): string {
    if s != [] && s[0] == '"' then s[1..] else s
  }

  function StripClosing(s: string): string {
    if s != [] && s[|s| - 1] == '"' then s[..|s| - 1] else s
  }

  /** `split(',')`: always at least one piece. */
  function Split(s: string): (pieces: seq<string>)
    ensures pieces != []
  {
    if s == [] then [""]
    else
      var rest := Split(s[1..]);
      if s[0] == ',' then [""] + rest else [[s[0]] + rest[0]] + rest[1..]
  }

  function TrimAll(pieces: seq<string>): (trimmed: seq<string>)
    ensures |trimmed| == |pieces|
    ensures forall i :: 0 <= i < |pieces| ==> trimmed[i] == Trim(pieces[i])
  {
    if pieces == [] then [] else [Trim(pieces[0])] + TrimAll(pieces[1..])
  }

  /** `trim_start_matches("0x")` removes the prefix as often as it is there. */
  function TrimMarks(s: string): string {
    if |s| >= 2 && s[0] == '0' && s[1] == 'x' then TrimMarks(s[2..]) else s
  }

  function Digit(c: char): Option<nat> {
    if '0' <= c <= '9' then Some(c as int - '0' as int)
    else if 'a' <= c <= 'f' then Some(c as int - 'a' as int + 10)
    else if 'A' <= c <= 'F' then Some(c as int - 'A' as int + 10)
    else None
  }

  function HexValue(s: string): Option<nat> {
    if s == [] then Some(0)
    else
      var high, low := HexValue(s[..|s| - 1]), Digit(s[|s| - 1]);
      if high.Some? && low.Some? then Some(16 * high.value + low.value) else None
  }

  /** A number of 256 bits from its hexadecimal digits. */
  function ParseWord(s: string): Option<nat> {
    var v := HexValue(s);
    if v.Some? && v.value < WORD then v else None
  }

  function DecodeAll(pieces: seq<string>): Panicking<seq<Byte>> {
    if pieces == [] then Ok([])
    else
      var v := ParseWord(TrimMarks(pieces[0]));
      if v.None? then Panic
      else
        match DecodeAll(pieces[1..])
        case Panic => Panic
        case Ok(rest) => Ok(ToBytes(v.value, 32) + rest)
  }

  /** `decode_gnark_proof_to_bytes`. */
  function Decode(text: string): Panicking<seq<Byte>> {
    var body := StripClosing(StripOpening(Trim(text)));
    var values := TrimAll(Split(body));
    if |values| != 10 then Panic
    else
      match DecodeAll(values)
      case Panic => Panic
      case Ok(bytes) => if |bytes| != 320 then Panic else Ok(bytes)
  }

  // ----- The texts it is meant for

  type Nibble = n: nat | n < 16

  /** A printed digit, in either case. */
  datatype HexDigit = HexDigit(value: Nibble, upper: bool)

  function DigitChar(d: HexDigit): char {
    if d.upper then "0123456789ABCDEF"[d.value] else "0123456789abcdef"[d.value]
  }

  function DigitsText(ds: seq<HexDigit>): string {
    if ds == [] then "" else DigitsText(ds[..|ds| - 1]) + [DigitChar(ds[|ds| - 1])]
  }

  /** The number the digits stand for. */
  function Number(ds: seq<HexDigit>): nat {
    if ds == [] then 0 else 16 * Number(ds[..|ds| - 1]) + ds[|ds| - 1].value
  }

  /** One printed number: white space, any number of 0x, its digits, white space. */
  datatype Piece = Piece(before: string, marks: nat, digits: seq<HexDigit>, after: string)

  ghost predicate Blank(s: string) {
    forall i :: 0 <= i < |s| ==> IsSpace(s[i])
  }

  ghost predicate Printed(p: Piece) {
    Blank(p.before) && Blank(p.after) && Number(p.digits) < WORD
  }

  function Marks(n: nat): string {
    if n == 0 then "" else "0x" + Marks(n - 1)
  }

  function CoreText(p: Piece): string {
    Marks(p.marks) + DigitsText(p.digits)
  }

  function PieceText(p: Piece): string {
    p.before + CoreText(p) + p.after
  }

  function Join(pieces: seq<string>): string
    requires pieces != []
  {
    if |pieces| == 1 then pieces[0] else pieces[0] + "," + Join(pieces[1..])
  }

  function Quote(quoted: bool): string {
    if quoted then "\"" else ""
  }

  // ----- Trimming

  lemma {:induction false} TrimStartBlank(s: string, t: string)
    requires Blank(s)
    ensures TrimStart(s + t) == TrimStart(t)
    decreases |s|
  {
    if s == [] {
      assert s + t == t;
    } else {
      assert (s + t)[1..] == s[1..] + t;
      TrimStartBlank(s[1..], t);
    }
  }

  lemma {:induction false} TrimEndBlank(t: string, s: string)
    requires Blank(s)
    ensures TrimEnd(t + s) == TrimEnd(t)
    decreases |s|
  {
    if s == [] {
      assert t + s == t;
    } else {
      var init := s[..|s| - 1];
      assert (t + s)[..|t + s| - 1] == t + init;
      TrimEndBlank(t, init);
    }
  }

  /** Appending white space does not change what trimming leaves. */
  lemma {:induction false} TrimAfter(t: string, s: string)
    requires Blank(s)
    ensures Trim(t + s) == Trim(t)
    decreases |t|
  {
    if t != [] && IsSpace(t[0]) {
      assert (t + s)[1..] == t[1..] + s;
      TrimAfter(t[1..], s);
    } else if t == [] {
      TrimStartBlank(s, []);
      assert t + s == s && s + [] == s;
    } else {
      TrimEndBlank(t, s);
    }
  }

  lemma {:induction false} TrimAround(before: string, t: string, after: string)
    requires Blank(before) && Blank(after)
    ensures Trim(before + t + after) == Trim(t)
  {
    assert before + t + after == before + (t + after);
    TrimStartBlank(before, t + after);
    TrimAfter(t, after);
  }

  /** Removing white space at either end changes no trimmed piece. */
  lemma {:induction false} SplitTrimStart(s: string)
    ensures TrimAll(Split(TrimStart(s))) == TrimAll(Split(s))
    decreases |s|
  {
    if s != [] && IsSpace(s[0]) {
      SplitTrimStart(s[1..]);
      var rest := Split(s[1..]);
      assert Blank([s[0]]);
      TrimStartBlank([s[0]], rest[0]);
      assert Trim([s[0]] + rest[0]) == Trim(rest[0]);
      SameTrims([[s[0]] + rest[0]] + rest[1..], rest);
    }
  }

  lemma {:induction false} SameTrims(a: seq<string>, b: seq<string>)
    requires |a| == |b| && forall i :: 0 <= i < |a| ==> Trim(a[i]) == Trim(b[i])
    ensures TrimAll(a) == TrimAll(b)
  {
  }

  /** The pieces with one more character at the end of the last. */
  function WithLast(r: seq<string>, c: char): seq<string>
    requires r != []
  {
    r[..|r| - 1] + [r[|r| - 1] + [c]]
  }

  lemma {:induction false} SplitOne(c: char)
    requires c != ','
    ensures Split([c]) == [[c]]
  {
    assert [c][1..] == [];
    assert Split([c][1..]) == [""];
    assert [c] + "" == [c];
  }

  lemma {:induction false} SplitLast(s: string, c: char)
    requires c != ','
    ensures Split(s + [c]) == WithLast(Split(s), c)
    decreases |s|
  {
    if s == [] {
      SplitOne(c);
      assert s + [c] == [c] && "" + [c] == [c];
    } else {
      assert (s + [c])[1..] == s[1..] + [c] && (s + [c])[0] == s[0];
      SplitLast(s[1..], c);
      WithLastOfSplit(s[0], Split(s[1..]), c);
    }
  }

  lemma {:induction false} WithLastOfSplit(first: char, r: seq<string>, c: char)
    requires r != []
    ensures WithLast([""] + r, c) == [""] + WithLast(r, c)
    ensures WithLast([[first] + r[0]] + r[1..], c) == [[first] + WithLast(r, c)[0]] + WithLast(r, c)[1..]
  {
    if |r| == 1 {
      assert [first] + (r[0] + [c]) == ([first] + r[0]) + [c];
    }
  }

  lemma {:induction false} SplitTrimEnd(s: string)
    ensures TrimAll(Split(TrimEnd(s))) == TrimAll(Split(s))
    decreases |s|
  {
    if s != [] && IsSpace(s[|s| - 1]) {
      var init, c := s[..|s| - 1], s[|s| - 1];
      SplitTrimEnd(init);
      assert s == init + [c];
      SplitLast(init, c);
      var r := Split(init);
      TrimAfter(r[|r| - 1], [c]);
      LastTrimmed(Split(s), r, c);
    }
  }

  lemma {:induction false} LastTrimmed(a: seq<string>, b: seq<string>, c: char)
    requires b != [] && a == WithLast(b, c)
    requires Trim(b[|b| - 1] + [c]) == Trim(b[|b| - 1])
    ensures TrimAll(a) == TrimAll(b)
  {
    hide Trim;
    SameTrims(a, b);
  }

  // ----- Quotes

  ghost predicate NoQuotes(s: string) {
    forall i :: 0 <= i < |s| ==> s[i] != '"'
  }

  lemma {:induction false} TrimNoQuotes(s: string)
    requires NoQuotes(s)
    ensures NoQuotes(TrimStart(s)) && NoQuotes(TrimEnd(s))
    decreases |s|
  {
    if s != [] {
      if IsSpace(s[0]) {
        TrimNoQuotes(s[1..]);
      }
      if IsSpace(s[|s| - 1]) {
        TrimNoQuotes(s[..|s| - 1]);
      }
    }
  }

  lemma {:induction false} TrimEndKeepsFirst(s: string)
    requires s != [] && !IsSpace(s[0])
    ensures TrimEnd(s) != [] && TrimEnd(s)[0] == s[0] && TrimEnd(s)[1..] == TrimEnd(s[1..])
    decreases |s|
  {
    if |s| > 1 && IsSpace(s[|s| - 1]) {
      var init := s[..|s| - 1];
      TrimEndKeepsFirst(init);
      assert s[1..][..|s| - 2] == init[1..];
    }
  }

  lemma {:induction false} TrimStartKeepsLast(s: string, c: char)
    requires !IsSpace(c)
    ensures TrimStart(s + [c]) == TrimStart(s) + [c]
    decreases |s|
  {
    if s != [] {
      assert (s + [c])[1..] == s[1..] + [c];
      if IsSpace(s[0]) {
        TrimStartKeepsLast(s[1..], c);
      }
    } else {
      assert s + [c] == [c];
    }
  }

  /** The quotes, where present, are what is stripped; the trimmed pieces are those of the body. */
  lemma {:induction false} BodyPieces(before: string, opening: bool, body: string, closing: bool, after: string)
    requires Blank(before) && Blank(after) && NoQuotes(body) && TrimStart(body) != []
    ensures var text := before + (Quote(opening) + body + Quote(closing)) + after;
      TrimAll(Split(StripClosing(StripOpening(Trim(text))))) == TrimAll(Split(body))
  {
    hide TrimStart, TrimEnd, Split, IsSpace;
    TrimAround(before, Quote(opening) + body + Quote(closing), after);
    SplitTrimStart(body);
    SplitTrimEnd(body);
    SplitTrimEnd(TrimStart(body));
    TrimNoQuotes(body);
    TrimNoQuotes(TrimStart(body));
    Quoted(opening, body, closing);
  }

  lemma {:induction false} Quoted(opening: bool, body: string, closing: bool)
    requires NoQuotes(body) && TrimStart(body) != []
    ensures StripClosing(StripOpening(Trim(Quote(opening) + body + Quote(closing)))) ==
      var inner := if opening then body else TrimStart(body);
      if closing then inner else TrimEnd(inner)
  {
    hide TrimEnd, TrimStart, IsSpace;
    TrimNoQuotes(body);
    var inner := if opening then body else TrimStart(body);
    TrimNoQuotes(inner);
    var open := Quote(opening) + inner;
    assert Quote(opening) + body + Quote(closing) == Quote(opening) + (body + Quote(closing));
    StartQuoted(opening, body + Quote(closing));
    if closing {
      QuoteIsNoSpace();
      TrimStartKeepsLast(body, '"');
      EndsInQuote(open);
      assert TrimStart(Quote(opening) + (body + "\"")) == open + "\"";
      assert open + "\"" == Quote(opening) + (inner + "\"");
      StripsOpening(opening, inner + "\"");
      assert (inner + "\"")[..|inner|] == inner;
    } else {
      assert body + "" == body;
      assert TrimStart(Quote(opening) + body) == open;
      EndQuoted(opening, inner);
      StripsOpening(opening, TrimEnd(inner));
    }
  }

  lemma {:induction false} StartQuoted(opening: bool, rest: string)
    ensures TrimStart(Quote(opening) + rest) == if opening then Quote(opening) + rest else TrimStart(rest)
  {
    assert "" + rest == rest;
  }

  lemma {:induction false} EndQuoted(opening: bool, inner: string)
    ensures TrimEnd(Quote(opening) + inner) == Quote(opening) + TrimEnd(inner)
  {
    if opening {
      QuoteIsNoSpace();
      TrimEndKeepsFirst("\"" + inner);
      assert ("\"" + inner)[1..] == inner;
      var t := TrimEnd("\"" + inner);
      assert t == [t[0]] + t[1..];
    } else {
      assert "" + inner == inner && "" + TrimEnd(inner) == TrimEnd(inner);
    }
  }

  lemma {:induction false} StripsOpening(opening: bool, rest: string)
    requires opening || rest == [] || rest[0] != '"'
    ensures StripOpening(Quote(opening) + rest) == rest
  {
    assert "" + rest == rest;
  }

  lemma {:induction false} QuoteIsNoSpace()
    ensures !IsSpace('"')
  {
  }

  lemma {:induction false} EndsInQuote(s: string)
    ensures TrimEnd(s + "\"") == s + "\""
  {
  }

  // ----- The pieces

  lemma {:induction false} DigitIsPlain(d: HexDigit)
    ensures Digit(DigitChar(d)) == Some(d.value)
    ensures var c := DigitChar(d); c != ',' && c != '"' && c != 'x' && !IsSpace(c)
  {
  }

  /** Printed digits have their number as their value. */
  lemma {:induction false} DigitsValue(ds: seq<HexDigit>)
    ensures HexValue(DigitsText(ds)) == Some(Number(ds))
  {
    hide Digit, DigitChar;
    if ds != [] {
      var init, last := ds[..|ds| - 1], ds[|ds| - 1];
      DigitsValue(init);
      DigitIsPlain(last);
      assert DigitsText(ds)[..|DigitsText(ds)| - 1] == DigitsText(init);
    }
  }

  ghost predicate Plain(s: string) {
    forall i :: 0 <= i < |s| ==> s[i] != ',' && s[i] != '"' && !IsSpace(s[i])
  }

  lemma {:induction false} DigitsArePlain(ds: seq<HexDigit>)
    ensures Plain(DigitsText(ds)) && forall i :: 0 <= i < |DigitsText(ds)| ==> DigitsText(ds)[i] != 'x'
  {
    if ds != [] {
      DigitsArePlain(ds[..|ds| - 1]);
      DigitIsPlain(ds[|ds| - 1]);
    }
  }

  lemma {:induction false} MarksAreTrimmed(n: nat, s: string)
    requires Plain(s) && forall i :: 0 <= i < |s| ==> s[i] != 'x'
    ensures TrimMarks(Marks(n) + s) == s && Plain(Marks(n) + s)
  {
    if n == 0 {
      assert "" + s == s;
    } else {
      MarksAreTrimmed(n - 1, s);
      assert Marks(n) + s == "0x" + (Marks(n - 1) + s);
      assert (Marks(n) + s)[2..] == Marks(n - 1) + s;
      assert !IsSpace('0') && !IsSpace('x');
    }
  }

  lemma {:induction false} CoreIsPlain(p: Piece)
    ensures Plain(CoreText(p)) && TrimMarks(CoreText(p)) == DigitsText(p.digits)
  {
    DigitsArePlain(p.digits);
    MarksAreTrimmed(p.marks, DigitsText(p.digits));
  }

  lemma {:induction false} TrimPlain(s: string)
    requires Plain(s)
    ensures Trim(s) == s
  {
  }

  /** A printed piece has no comma or quote, and trims to its core. */
  lemma {:induction false} PieceTrims(p: Piece)
    requires Printed(p)
    ensures Trim(PieceText(p)) == CoreText(p)
    ensures forall i :: 0 <= i < |PieceText(p)| ==> PieceText(p)[i] != ',' && PieceText(p)[i] != '"'
  {
    CoreIsPlain(p);
    TrimAround(p.before, CoreText(p), p.after);
    TrimPlain(CoreText(p));
    SpaceIsPlain(p.before);
    SpaceIsPlain(p.after);
  }

  lemma {:induction false} SpaceIsPlain(s: string)
    requires Blank(s)
    ensures forall i :: 0 <= i < |s| ==> s[i] != ',' && s[i] != '"'
  {
    forall i | 0 <= i < |s| ensures s[i] != ',' && s[i] != '"' {
      assert IsSpace(s[i]);
    }
  }

  ghost predicate AllPrinted(ps: seq<Piece>) {
    forall i :: 0 <= i < |ps| ==> Printed(ps[i])
  }

  function Texts(ps: seq<Piece>): (r: seq<string>)
    ensures |r| == |ps| && forall i :: 0 <= i < |ps| ==> r[i] == PieceText(ps[i])
  {
    seq(|ps|, i requires 0 <= i < |ps| => PieceText(ps[i]))
  }

  lemma {:induction false} SplitPlain(s: string, rest: string)
    requires forall i :: 0 <= i < |s| ==> s[i] != ','
    ensures Split(s) == [s]
    ensures Split(s + "," + rest) == [s] + Split(rest)
    decreases |s|
  {
    var t := s + "," + rest;
    if s == [] {
      assert t == "," + rest && t[1..] == rest;
    } else {
      SplitPlain(s[1..], rest);
      assert t[1..] == s[1..] + "," + rest;
      assert [s[0]] + s[1..] == s;
    }
  }

  /** Splitting the joined texts gives them back. */
  lemma {:induction false} SplitJoin(ps: seq<Piece>)
    requires ps != [] && AllPrinted(ps)
    ensures Split(Join(Texts(ps))) == Texts(ps) && NoQuotes(Join(Texts(ps)))
    decreases |ps|
  {
    hide PieceText, Split, Printed;
    PieceTrims(ps[0]);
    if |ps| == 1 {
      SplitPlain(PieceText(ps[0]), "");
    } else {
      SplitJoin(ps[1..]);
      assert Texts(ps)[1..] == Texts(ps[1..]);
      SplitPlain(PieceText(ps[0]), Join(Texts(ps[1..])));
    }
  }

  /** A comma is not white space, so two or more pieces are not all blank. */
  lemma {:induction false} JoinNotBlank(pieces: seq<string>)
    requires |pieces| > 1
    ensures TrimStart(Join(pieces)) != []
  {
    assert Join(pieces)[|pieces[0]|] == ',';
    assert !IsSpace(',');
    NotBlank(Join(pieces), |pieces[0]|);
  }

  lemma {:induction false} NotBlank(s: string, i: nat)
    requires i < |s| && !IsSpace(s[i])
    ensures TrimStart(s) != []
    decreases i
  {
    if i > 0 {
      NotBlank(s[1..], i - 1);
    }
  }

  /** The big-endian bytes of the numbers printed in the pieces, one after the other. */
  function BytesOf(ps: seq<Piece>): seq<Byte> {
    if ps == [] then [] else ToBytes(Number(ps[0].digits), 32) + BytesOf(ps[1..])
  }

  lemma {:induction false} DecodePieces(ps: seq<Piece>, pieces: seq<string>)
    requires AllPrinted(ps) && |pieces| == |ps|
    requires forall i :: 0 <= i < |ps| ==> pieces[i] == CoreText(ps[i])
    ensures DecodeAll(pieces) == Ok(BytesOf(ps)) && |BytesOf(ps)| == 32 * |ps|
    decreases |ps|
  {
    hide TrimMarks, HexValue, CoreText;
    if ps != [] {
      CoreIsPlain(ps[0]);
      DigitsValue(ps[0].digits);
      DecodePieces(ps[1..], pieces[1..]);
    }
  }

  lemma {:induction false} WordAt(ps: seq<Piece>, i: nat)
    requires i < |ps|
    ensures |BytesOf(ps)| == 32 * |ps|
    ensures BytesOf(ps)[32 * i..32 * i + 32] == ToBytes(Number(ps[i].digits), 32)
    decreases |ps|
  {
    var first, rest := ToBytes(Number(ps[0].digits), 32), BytesOf(ps[1..]);
    if |ps| == 1 {
      assert rest == [];
    } else {
      WordAt(ps[1..], if i == 0 then 0 else i - 1);
      if i > 0 {
        assert BytesOf(ps)[32 * i..32 * i + 32] == rest[32 * (i - 1)..32 * (i - 1) + 32];
      }
    }
  }

  /** The text is ten printed numbers below 2^256 joined by commas, with or without either outer
      quote, and white space around it all. */
  ghost predicate Spells(text: string, before: string, opening: bool, ps: seq<Piece>, closing: bool, after: string) {
    && Blank(before) && Blank(after) && |ps| == 10 && AllPrinted(ps)
    && text == before + (Quote(opening) + Join(Texts(ps)) + Quote(closing)) + after
  }

  /** The round trip: ten numbers below 2^256, printed in hexadecimal of either case with or without
      0x, joined by commas with any white space around them, with or without either outer quote,
      decode to their 32-byte big-endian forms in order; so cutting the 320 bytes into words gives
      them back. */
  lemma {:induction false} DecodePrinted(text: string, before: string, opening: bool, ps: seq<Piece>, closing: bool, after: string)
    requires Spells(text, before, opening, ps, closing, after)
    ensures Decode(text) == Ok(BytesOf(ps)) && |BytesOf(ps)| == 320
    ensures forall i :: 0 <= i < 10 ==> FromBytes(BytesOf(ps)[32 * i..32 * i + 32]) == Number(ps[i].digits)
  {
    hide IsSpace, Trim, Join, Split, BytesOf, ParseWord, HexValue;
    var body := Join(Texts(ps));
    SplitJoin(ps);
    JoinNotBlank(Texts(ps));
    BodyPieces(before, opening, body, closing, after);
    var values := TrimAll(Split(body));
    forall i | 0 <= i < |ps| ensures values[i] == CoreText(ps[i]) {
      PieceTrims(ps[i]);
    }
    DecodePieces(ps, values);
    forall i | 0 <= i < 10 ensures FromBytes(BytesOf(ps)[32 * i..32 * i + 32]) == Number(ps[i].digits) {
      WordAt(ps, i);
      WordBound();
      NumberRoundTrip(Number(ps[i].digits), 32);
    }
  }

  // ----- Nothing else decodes

  lemma {:induction false} TrimStartOf(s: string) returns (before: string)
    ensures Blank(before) && s == before + TrimStart(s)
  {
    before := "";
    if s != [] && IsSpace(s[0]) {
      var more := TrimStartOf(s[1..]);
      before := [s[0]] + more;
    }
  }

  lemma {:induction false} TrimEndOf(s: string) returns (after: string)
    ensures Blank(after) && s == TrimEnd(s) + after
  {
    after := "";
    if s != [] && IsSpace(s[|s| - 1]) {
      var more := TrimEndOf(s[..|s| - 1]);
      after := more + [s[|s| - 1]];
    }
  }

  /** What trimming removes is white space. */
  lemma {:induction false} TrimOf(s: string) returns (before: string, after: string)
    ensures Blank(before) && Blank(after) && s == before + Trim(s) + after
  {
    before := TrimStartOf(s);
    after := TrimEndOf(TrimStart(s));
  }

  /** What stripping removes is quotes. */
  lemma {:induction false} QuotesOf(s: string) returns (opening: bool, closing: bool)
    ensures s == Quote(opening) + StripClosing(StripOpening(s)) + Quote(closing)
  {
    opening := s != [] && s[0] == '"';
    var rest := StripOpening(s);
    closing := rest != [] && rest[|rest| - 1] == '"';
  }

  /** Joining what splitting gives back the text. */
  lemma {:induction false} JoinSplit(s: string)
    ensures Join(Split(s)) == s
  {
    if s != [] {
      var rest := Split(s[1..]);
      JoinSplit(s[1..]);
      if s[0] == ',' {
        assert ([""] + rest)[1..] == rest;
      } else if |rest| > 1 {
        var joined := Join(rest[1..]);
        assert ([s[0]] + rest[0]) + "," + joined == [s[0]] + (rest[0] + "," + joined);
      }
    }
  }

  lemma {:induction false} MarksOf(s: string) returns (n: nat)
    ensures s == Marks(n) + TrimMarks(s)
  {
    n := 0;
    if |s| >= 2 && s[0] == '0' && s[1] == 'x' {
      var m := MarksOf(s[2..]);
      n := m + 1;
    }
  }

  lemma {:induction false} DigitOf(c: char) returns (d: HexDigit)
    requires Digit(c).Some?
    ensures DigitChar(d) == c && Some(d.value) == Digit(c)
  {
    d := HexDigit(Digit(c).value, 'A' <= c <= 'F');
  }

  lemma {:induction false} DigitsOf(s: string) returns (ds: seq<HexDigit>)
    requires HexValue(s).Some?
    ensures DigitsText(ds) == s && Some(Number(ds)) == HexValue(s)
  {
    ds := [];
    if s != [] {
      var init := DigitsOf(s[..|s| - 1]);
      var last := DigitOf(s[|s| - 1]);
      ds := init + [last];
      assert ds[..|ds| - 1] == init;
    }
  }

  /** A piece that decodes is a printed number. */
  lemma {:induction false} PieceOf(s: string) returns (p: Piece)
    requires ParseWord(TrimMarks(Trim(s))).Some?
    ensures Printed(p) && PieceText(p) == s
  {
    hide Trim, IsSpace, HexValue, TrimMarks;
    var before, after := TrimOf(s);
    var marks := MarksOf(Trim(s));
    var digits := DigitsOf(TrimMarks(Trim(s)));
    p := Piece(before, marks, digits, after);
  }

  lemma {:induction false} PiecesOf(pieces: seq<string>) returns (ps: seq<Piece>)
    requires DecodeAll(TrimAll(pieces)).Ok?
    ensures AllPrinted(ps) && Texts(ps) == pieces
  {
    hide Trim, Printed, PieceText, ParseWord, TrimMarks;
    ps := [];
    if pieces != [] {
      var first := PieceOf(pieces[0]);
      var rest := PiecesOf(pieces[1..]);
      ps := [first] + rest;
    }
  }

  /** The decoder accepts exactly the texts of ten printed numbers below 2^256: another count, a
      character that is no digit, or a number that does not fit panics. */
  lemma {:induction false} DecodeAccepts(text: string)
    ensures Decode(text).Ok? <==>
      exists before, opening, ps, closing, after :: Spells(text, before, opening, ps, closing, after)
  {
    hide Trim, Split, Join, DecodeAll, Printed, Blank, PieceText;
    if before, opening, ps, closing, after :| Spells(text, before, opening, ps, closing, after) {
      DecodePrinted(text, before, opening, ps, closing, after);
    } else if Decode(text).Ok? {
      var before, after := TrimOf(text);
      var opening, closing := QuotesOf(Trim(text));
      var body := StripClosing(StripOpening(Trim(text)));
      JoinSplit(body);
      var ps := PiecesOf(Split(body));
      assert Spells(text, before, opening, ps, closing, after);
    }
  }

  // ----- Every number can be printed

  function PrintHex(v: nat): seq<HexDigit> {
    (if v < 16 then [] else PrintHex(v / 16)) + [HexDigit(v % 16, false)]
  }

  /** The hexadecimal digits of a number stand for that number. */
  lemma {:induction false} PrintHexValue(v: nat)
    ensures Number(PrintHex(v)) == v
  {
    if v >= 16 {
      PrintHexValue(v / 16);
    } else {
      assert PrintHex(v)[..0] == [];
    }
  }

  /** Number i of a list as it is usually printed. */
  function ListText(v: seq<nat>, i: nat): string
    requires i < |v|
  {
    (if i == 0 then "" else " ") + "0x" + DigitsText(PrintHex(v[i]))
  }

  /** Any ten numbers below 2^256, printed as a quoted list of 0x numbers separated by a comma and a
      space, come back as the words of the 320 bytes. */
  lemma {:induction false} DecodeList(v: seq<nat>)
    requires |v| == 10 && forall i :: 0 <= i < 10 ==> v[i] < WORD
    ensures var r := Decode("\"" + Join(seq(10, i requires 0 <= i < 10 => ListText(v, i))) + "\"");
      r.Ok? && |r.value| == 320 && forall i :: 0 <= i < 10 ==> FromBytes(r.value[32 * i..32 * i + 32]) == v[i]
  {
    var ps := seq(10, i requires 0 <= i < 10 => Piece(if i == 0 then "" else " ", 1, PrintHex(v[i]), ""));
    forall i | 0 <= i < 10 ensures Printed(ps[i]) && PieceText(ps[i]) == ListText(v, i) && Number(ps[i].digits) == v[i] {
      PrintHexValue(v[i]);
    }
    var texts := seq(10, i requires 0 <= i < 10 => ListText(v, i));
    assert Texts(ps) == texts;
    var text := "\"" + Join(texts) + "\"";
    assert text == "" + text + "";
    DecodePrinted(text, "", true, ps, true, "");
  }
}
