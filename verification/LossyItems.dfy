/**
 * Byte strings put together from whole characters and lone bytes: batch decoding shows every item
 * as itself, or yields fewer characters than there are items.
 */
module LossyItems {
  import opened Prelude
  import opened Utf8

  datatype Item = Whole(c: char) | Lone(b: byte)

  function BytesOfItem(item: Item): (bytes: seq<byte>)
    ensures bytes != []
  {
    match item
    case Whole(c) => Encode(c)
    case Lone(b) => [b]
  }

  function ItemBytes(items: seq<Item>): seq<byte> {
    if items == [] then [] else BytesOfItem(items[0]) + ItemBytes(items[1..])
  }

  /** A lone byte is a character only in ASCII. */
  function ShownItem(item: Item): char {
    match item
    case Whole(c) => c
    case Lone(b) => if b < 0x80 then b as char else '\U{FFFD}'
  }

  function Shown(items: seq<Item>): (text: string)
    ensures |text| == |items|
  {
    seq(|items|, i requires 0 <= i < |items| => ShownItem(items[i]))
  }

  function Wholes(text: string): (items: seq<Item>)
    ensures |items| == |text|
    ensures forall i :: 0 <= i < |text| ==> items[i] == Whole(text[i])
  {
    seq(|text|, i requires 0 <= i < |text| => Whole(text[i]))
  }

  function Lones(bytes: seq<byte>): (items: seq<Item>)
    ensures |items| == |bytes|
    ensures forall i :: 0 <= i < |bytes| ==> items[i] == Lone(bytes[i])
  {
    seq(|bytes|, i requires 0 <= i < |bytes| => Lone(bytes[i]))
  }

  lemma {:induction false} BytesOfWholes(text: string)
    ensures ItemBytes(Wholes(text)) == EncodeAll(text)
  {
    if text != "" {
      assert Wholes(text)[1..] == Wholes(text[1..]);
      BytesOfWholes(text[1..]);
    }
  }

  lemma {:induction false} BytesOfLones(bytes: seq<byte>)
    ensures ItemBytes(Lones(bytes)) == bytes
  {
    if bytes != [] {
      assert Lones(bytes)[1..] == Lones(bytes[1..]);
      BytesOfLones(bytes[1..]);
    }
  }

  lemma {:induction false} ItemBytesAppend(a: seq<Item>, b: seq<Item>)
    ensures ItemBytes(a + b) == ItemBytes(a) + ItemBytes(b)
  {
    if a == [] {
      assert a + b == b;
    } else {
      assert (a + b)[1..] == a[1..] + b;
      ItemBytesAppend(a[1..], b);
      Prepend(BytesOfItem(a[0]), ItemBytes(a[1..]), ItemBytes(b));
    }
  }

  lemma {:induction false} ShownAppend(a: seq<Item>, b: seq<Item>)
    ensures Shown(a + b) == Shown(a) + Shown(b)
  {}

  /** No character's encoding begins with a continuation byte, and all of it after the first is such bytes. */
  lemma {:induction false} EncodingOpens(c: char, i: nat)
    requires i < |Encode(c)|
    ensures i == 0 <==> !Continuation(Encode(c)[i])
    ensures i > 0 ==> Encode(c)[i] >= 0x80
  {}

  /** Continuation bytes at the front are lone ones. */
  lemma {:induction false} DropContinuations(items: seq<Item>, n: nat)
    requires n <= |ItemBytes(items)| && forall i :: 0 <= i < n ==> Continuation(ItemBytes(items)[i])
    ensures n <= |items| && ItemBytes(items)[n..] == ItemBytes(items[n..])
  {
    if n == 0 {
      assert items[0..] == items;
    } else {
      var bytes := ItemBytes(items);
      assert bytes[0] == BytesOfItem(items[0])[0];
      if items[0].Whole? {
        EncodingOpens(items[0].c, 0);
      }
      assert bytes[1..] == ItemBytes(items[1..]);
      forall i | 0 <= i < n - 1 ensures Continuation(ItemBytes(items[1..])[i]) {
        assert ItemBytes(items[1..])[i] == bytes[i + 1];
      }
      DropContinuations(items[1..], n - 1);
      assert items[1..][n - 1..] == items[n..];
      assert bytes[1..][n - 1..] == bytes[n..];
    }
  }

  /** Whatever a verdict takes after the first byte are continuation bytes. */
  lemma {:induction false} ScanTakesContinuations(s: seq<byte>, i: nat)
    requires s != []
    ensures Scan(s).Valid? && Scan(s).n == 1 <==> s[0] < 0x80
    ensures 0 < i < (if Scan(s).Incomplete? then |s| else Scan(s).n) ==> Continuation(s[i])
  {}

  /** Every item is shown as itself, or fewer characters come out than there are items. */
  lemma {:induction false} LossyOfItems(items: seq<Item>)
    ensures |Lossy(ItemBytes(items))| < |items| || Lossy(ItemBytes(items)) == Shown(items)
    decreases |items|
  {
    if items != [] {
      hide Scan, CodePoint, Encode, Lossy;
      var s, rest := ItemBytes(items), items[1..];
      assert Shown(items) == [ShownItem(items[0])] + Shown(rest);
      match items[0]
      case Whole(c) =>
        ScanOfEncoding(c, ItemBytes(rest));
        assert s[|Encode(c)|..] == ItemBytes(rest);
        LossyStep(s);
        LossyOfItems(rest);
      case Lone(b) =>
        assert s[1..] == ItemBytes(rest);
        LossyOfLone(items);
    }
  }

  lemma {:induction false} LossyStep(s: seq<byte>)
    requires s != []
    ensures Lossy(s) == match Scan(s)
                        case Valid(n) => [CharAt(s)] + Lossy(s[n..])
                        case Invalid(n) => [REPLACEMENT] + Lossy(s[n..])
                        case Incomplete => [REPLACEMENT]
  {}

  lemma {:induction false} AsciiChar(s: seq<byte>)
    requires s != [] && s[0] < 0x80
    ensures Scan(s) == Valid(1) && CharAt(s) == s[0] as char
  {}

  lemma {:induction false} LossyOfLone(items: seq<Item>)
    requires items != [] && items[0].Lone?
    ensures |Lossy(ItemBytes(items))| < |items| || Lossy(ItemBytes(items)) == Shown(items)
    decreases |items|, 0
  {
    hide Scan, CodePoint, Encode, Lossy;
    var s, rest := ItemBytes(items), items[1..];
    assert Shown(items) == [ShownItem(items[0])] + Shown(rest);
    assert s[1..] == ItemBytes(rest) && s[0] == items[0].b;
    LossyStep(s);
    var n := if Scan(s).Incomplete? then |s| else Scan(s).n;
    forall i | 0 <= i < n - 1 ensures Continuation(ItemBytes(rest)[i]) {
      ScanTakesContinuations(s, i + 1);
    }
    DropContinuations(rest, n - 1);
    assert rest[n - 1..] == items[n..] && s[1..][n - 1..] == s[n..];
    ScanTakesContinuations(s, 0);
    if s[0] < 0x80 {
      AsciiChar(s);
    }
    if !Scan(s).Incomplete? {
      LossyOfItems(items[n..]);
    } else {
      assert n == 1 ==> rest == [];
    }
  }

  lemma {:induction false} AsciiEncoding(c: char)
    ensures Encode(c)[0] < 0x80 ==> c as int == Encode(c)[0] && |Encode(c)| == 1
  {}

  lemma {:induction false} EncodeFirst(text: string)
    requires text != ""
    ensures EncodeAll(text) == Encode(text[0]) + EncodeAll(text[1..])
  {}

  /** What follows the first character of a text is the cut of what follows it in the encoding. */
  lemma {:induction false} CutAfterFirst(text: string, a: seq<byte>, x: byte, b: seq<byte>)
    requires text != "" && EncodeAll(text) == a + [x] + b && x < 0x80
    ensures a == [] ==> text[0] == x as char && EncodeAll(text[1..]) == b
    ensures a != [] ==>
      && |Encode(text[0])| <= |a| && a == Encode(text[0]) + a[|Encode(text[0])|..]
      && EncodeAll(text[1..]) == a[|Encode(text[0])|..] + [x] + b
  {
    hide Encode, EncodeAll;
    var head, tail := Encode(text[0]), EncodeAll(text[1..]);
    EncodeFirst(text);
    var all := head + tail;
    assert all[|a|] == x;
    assert all[0] == head[0];
    if a == [] {
      AsciiEncoding(text[0]);
      assert all[1..] == b && all[1..] == tail;
    } else {
      assert |a| < |head| ==> all[|a|] == head[|a|];
      if |a| < |head| {
        EncodingOpens(text[0], |a|);
        assert false;
      }
      assert all[|head|..] == tail && (a + [x] + b)[|head|..] == a[|head|..] + [x] + b;
      assert a == all[..|a|] && head == all[..|head|];
    }
  }

  /** An ASCII byte in an encoding is a character of the text, and cuts it. */
  lemma {:induction false} AsciiCuts(text: string, a: seq<byte>, x: byte, b: seq<byte>) returns (k: nat)
    requires x < 0x80 && EncodeAll(text) == a + [x] + b
    ensures k < |text| && text[k] == x as char
    ensures EncodeAll(text[..k]) == a && EncodeAll(text[k + 1..]) == b
  {
    hide Encode;
    assert text != "";
    CutAfterFirst(text, a, x, b);
    if a == [] {
      k := 0;
    } else {
      hide EncodeAll;
      var n := |Encode(text[0])|;
      var j := AsciiCuts(text[1..], a[n..], x, b);
      k := j + 1;
      EncodeFirst(text[..k]);
      assert text[..k][1..] == text[1..][..j];
      assert text[1..][j + 1..] == text[k + 1..];
    }
  }
}
