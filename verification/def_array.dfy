/**
 * The encoded default values of array settings (_get_def_array_values in
 * lib/config/config.c).  An encoded default is a run of items, each a '#',
 * a type letter (I or B for an integer, F for a float, S for a string, in
 * either case) and the item's text; inside the text "##" stands for a
 * literal '#'.  A setting without a default gets a single empty-array value.
 *
 * Converting float text (strtod) is not modelled: `floatOk` says whether
 * strtod consumes the whole text.
 */
module DefaultArray {
  import opened Maybe
  import opened ConfigValues
  import opened Decimal

  /**
   * The text of one item, read up to the next lone '#' with each "##"
   * collapsed to '#', and what follows that '#' (None at the end of the
   * string).
   */
  function SplitValue(u: string): (r: (string, Option<string>))
    ensures r.1.Some? ==> |r.1.value| < |u|
    decreases |u|
  {
    if |u| == 0 then ("", None)
    else if u[0] == '#' then
      if |u| >= 2 && u[1] == '#' then
        var t := SplitValue(u[2..]);
        (['#'] + t.0, t.1)
      else ("", Some(u[1..]))
    else
      var t := SplitValue(u[1..]);
      ([u[0]] + t.0, t.1)
  }

  /** toupper in the C locale. */
  function Upper(c: char): (u: char)
    ensures 'a' <= c <= 'z' ==> 'A' <= u <= 'Z'
    ensures !('a' <= c <= 'z') ==> u == c
  {
    if 'a' <= c <= 'z' then ((c as int) - 32) as char else c
  }

  /**
   * The value of one item from its type letter and text.  An integer must be
   * the whole text for strtoll (an empty text reads as 0), a float the whole
   * text for strtod; any other letter is malformed.
   */
  function ItemValue(letter: char, text: string, floatOk: string -> bool): (r: Option<Value>)
    ensures r.Some? ==> Upper(letter) in "IBFS"
    ensures Upper(letter) in "IB" ==> (r.Some? <==> Strtoll(text).end == |text|)
    ensures Upper(letter) in "IB" && r.Some? ==> r.value == IntV(Strtoll(text).value)
    ensures Upper(letter) == 'F' ==> (r.Some? <==> floatOk(text))
    ensures Upper(letter) == 'S' ==> r.Some?
    ensures r.Some? ==> r.value != EmptyArray
    ensures r.Some? && r.value.StrV? ==> r.value.s == text
    ensures r.Some? && r.value.IntV? ==> LLONG_MIN <= r.value.i <= LLONG_MAX
  {
    var u := Upper(letter);
    if u == 'I' || u == 'B' then
      var p := Strtoll(text);
      if p.end == |text| then Some(IntV(p.value)) else None
    else if u == 'F' then
      if floatOk(text) then Some(FloatV(text)) else None
    else if u == 'S' then Some(StrV(text))
    else None
  }

  /** The values of the items in `t`, the encoded text after an item's leading '#'. */
  function DecodeItems(t: string, floatOk: string -> bool): (r: Option<seq<Value>>)
    ensures r.Some? ==> |r.value| > 0 && forall j | 0 <= j < |r.value| :: r.value[j] != EmptyArray
    ensures |t| == 0 ==> r.None?
    ensures |t| > 0 && ItemValue(t[0], SplitValue(t[1..]).0, floatOk).None? ==> r.None?
    ensures r.Some? ==> r.value[0] == ItemValue(t[0], SplitValue(t[1..]).0, floatOk).value
    decreases |t|
  {
    if |t| == 0 then None
    else
      var split := SplitValue(t[1..]);
      match ItemValue(t[0], split.0, floatOk)
      case None => None
      case Some(v) =>
        if split.1.None? then Some([v])
        else
          match DecodeItems(split.1.value, floatOk)
          case None => None
          case Some(vs) => Some([v] + vs)
  }

  /**
   * _get_def_array_values: the value list of an array setting's default.
   * None stands for the NULL the source returns on a malformed encoding.
   */
  function DecodeDefault(enc: Option<string>, floatOk: string -> bool): (r: Option<seq<Value>>)
    ensures enc.None? ==> r == Some([EmptyArray])
    ensures enc.Some? && (|enc.value| == 0 || enc.value[0] != '#') ==> r.None?
    ensures enc.Some? && r.Some? ==> |r.value| > 0 && forall j | 0 <= j < |r.value| :: r.value[j] != EmptyArray
    ensures enc == Some("#") ==> r.None?
    ensures (enc.Some? && |enc.value| >= 2 && enc.value[0] == '#'
             && ItemValue(enc.value[1], SplitValue(enc.value[2..]).0, floatOk).None?) ==> r.None?
    ensures enc.Some? && r.Some? ==>
              && |enc.value| >= 2
              && r.value[0] == ItemValue(enc.value[1], SplitValue(enc.value[2..]).0, floatOk).value
  {
    match enc
    case None => Some([EmptyArray])
    case Some(s) => if |s| == 0 || s[0] != '#' then None else DecodeItems(s[1..], floatOk)
  }

  // The encoding side: how the settings table writes an array default.

  /** Double every '#'. */
  function Escape(s: string): (e: string)
    ensures |e| >= |s|
    decreases |s|
  {
    if |s| == 0 then ""
    else (if s[0] == '#' then "##" else [s[0]]) + Escape(s[1..])
  }

  /** The values an encoded default can carry. */
  predicate Encodable(v: Value, floatOk: string -> bool) {
    match v
    case IntV(i) => LLONG_MIN <= i <= LLONG_MAX
    case FloatV(text) => floatOk(text)
    case StrV(_) => true
    case EmptyArray => false
  }

  /** The type letter the encoding writes for a value. */
  function Letter(v: Value): (c: char)
    requires v != EmptyArray
    ensures c != '#'
  {
    match v
    case IntV(_) => 'I'
    case FloatV(_) => 'F'
    case StrV(_) => 'S'
  }

  /** The text of a value before escaping. */
  function ValueText(v: Value): string
    requires v != EmptyArray
  {
    match v
    case IntV(i) => IntText(i)
    case FloatV(text) => text
    case StrV(s) => s
  }

  function EncodeValue(v: Value): (e: string)
    requires v != EmptyArray
  {
    [Letter(v)] + Escape(ValueText(v))
  }

  /** The encoded form of a non-empty list of values. */
  function Encode(vs: seq<Value>): (e: string)
    requires forall j | 0 <= j < |vs| :: vs[j] != EmptyArray
    ensures |vs| > 0 ==> |e| > 1 && e[0] == '#' && e[1] != '#'
    decreases |vs|
  {
    if |vs| == 0 then ""
    else ['#'] + (EncodeValue(vs[0]) + Encode(vs[1..]))
  }

  /** What follows an escaped text: the end of the string, or a '#' and the next item. */
  function Follow(rest: Option<string>): string {
    match rest
    case None => ""
    case Some(t) => "#" + t
  }

  /** An escaped '#' is read as one '#'. */
  lemma SplitEscapedHash(x: string)
    ensures SplitValue("##" + x) == (['#'] + SplitValue(x).0, SplitValue(x).1)
  {
    assert ("##" + x)[2..] == x;
  }

  /** Any other character is read as itself. */
  lemma SplitPlain(c: char, x: string)
    requires c != '#'
    ensures SplitValue([c] + x) == ([c] + SplitValue(x).0, SplitValue(x).1)
  {
    assert ([c] + x)[1..] == x;
  }

  /** An escaped text is read back exactly, stopping at the separator that follows it. */
  lemma {:induction false} SplitEscaped(s: string, rest: Option<string>)
    requires rest.Some? ==> |rest.value| > 0 && rest.value[0] != '#'
    ensures SplitValue(Escape(s) + Follow(rest)) == (s, rest)
    decreases |s|
  {
    if |s| == 0 {
      assert Escape(s) + Follow(rest) == Follow(rest);
      if rest.Some? {
        assert Follow(rest)[1..] == rest.value;
      }
    } else {
      var head := if s[0] == '#' then "##" else [s[0]];
      SplitEscaped(s[1..], rest);
      Associative(head, Escape(s[1..]), Follow(rest));
      if s[0] == '#' {
        SplitEscapedHash(Escape(s[1..]) + Follow(rest));
      } else {
        SplitPlain(s[0], Escape(s[1..]) + Follow(rest));
      }
      assert [s[0]] + s[1..] == s;
    }
  }

  lemma ItemValueOfEncoded(v: Value, floatOk: string -> bool)
    requires Encodable(v, floatOk)
    ensures ItemValue(Letter(v), ValueText(v), floatOk) == Some(v)
  {
    if v.IntV? {
      StrtollReadsIntText(v.i);
    }
  }

  /** One item decoded, then the rest. */
  lemma DecodeItemsCons(t: string, v: Value, text: string, rest: Option<string>, floatOk: string -> bool)
    requires |t| > 0 && SplitValue(t[1..]) == (text, rest) && ItemValue(t[0], text, floatOk) == Some(v)
    ensures rest.None? ==> DecodeItems(t, floatOk) == Some([v])
    ensures rest.Some? && DecodeItems(rest.value, floatOk).Some? ==>
              DecodeItems(t, floatOk) == Some([v] + DecodeItems(rest.value, floatOk).value)
  {
  }

  lemma DropFirst<T>(x: T, s: seq<T>)
    ensures ([x] + s)[1..] == s
  {
  }

  lemma Associative<T>(a: seq<T>, b: seq<T>, c: seq<T>)
    ensures (a + b) + c == a + (b + c)
  {
  }

  /** The text after an encoding's first '#': a letter, an escaped text, and the separator before the next item. */
  lemma EncodeShape(vs: seq<Value>)
    requires |vs| > 0 && forall j | 0 <= j < |vs| :: vs[j] != EmptyArray
    ensures var rest := if |vs| == 1 then None else Some(Encode(vs[1..])[1..]);
            Encode(vs)[1..] == [Letter(vs[0])] + (Escape(ValueText(vs[0])) + Follow(rest))
  {
    var tail := Encode(vs[1..]);
    var rest := if |vs| == 1 then None else Some(tail[1..]);
    var text := Escape(ValueText(vs[0]));
    DropFirst('#', EncodeValue(vs[0]) + tail);
    assert EncodeValue(vs[0]) == [Letter(vs[0])] + text;
    Associative([Letter(vs[0])], text, tail);
    if |vs| > 1 {
      DropFirst('#', tail[1..]);
      assert tail == ['#'] + tail[1..];
    }
  }

  /** Decoding the encoded items gives every value back, in order. */
  lemma {:induction false} DecodeItemsEncode(vs: seq<Value>, floatOk: string -> bool)
    requires |vs| > 0
    requires forall j | 0 <= j < |vs| :: vs[j] != EmptyArray && Encodable(vs[j], floatOk)
    ensures DecodeItems(Encode(vs)[1..], floatOk) == Some(vs)
    decreases |vs|
  {
    var v := vs[0];
    var rest := if |vs| == 1 then None else Some(Encode(vs[1..])[1..]);
    var t := Encode(vs)[1..];
    EncodeShape(vs);
    assert t[1..] == Escape(ValueText(v)) + Follow(rest);
    SplitEscaped(ValueText(v), rest);
    ItemValueOfEncoded(v, floatOk);
    DecodeItemsCons(t, v, ValueText(v), rest, floatOk);
    if |vs| > 1 {
      DecodeItemsEncode(vs[1..], floatOk);
      assert [v] + vs[1..] == vs;
    } else {
      assert vs == [v];
    }
  }

  /** An encoded default decodes to exactly the values it was written from. */
  lemma DecodeEncode(vs: seq<Value>, floatOk: string -> bool)
    requires |vs| > 0
    requires forall j | 0 <= j < |vs| :: vs[j] != EmptyArray && Encodable(vs[j], floatOk)
    ensures DecodeDefault(Some(Encode(vs)), floatOk) == Some(vs)
  {
    DecodeItemsEncode(vs, floatOk);
  }

  /** The case of a type letter does not matter. */
  lemma LetterCaseIgnored(letter: char, text: string, floatOk: string -> bool)
    requires 'a' <= letter <= 'z'
    ensures ItemValue(letter, text, floatOk) == ItemValue(Upper(letter), text, floatOk)
  {
  }
}
