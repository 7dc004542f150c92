/** The binary form of Valve's key-value trees: tagged entries closed by end markers. */
module VdfBinary {
  import opened Common
  import VdfText

  type Node = VdfText.Node

  const TAG_SUBTREE: byte := 0
  const TAG_STRING: byte := 1
  const TAG_INT32: byte := 2
  const TAG_FLOAT32: byte := 3
  const TAG_POINTER: byte := 4
  const TAG_WIDE: byte := 5
  const TAG_COLOR: byte := 6
  const TAG_UINT64: byte := 7
  const TAG_END: byte := 8
  const TAG_INT64: byte := 10

  const MINUS: byte := 45

  /** Decimal digits. */
  function Decimal(n: nat): Bytes {
    if n < 10 then [48 + n] else Decimal(n / 10) + [48 + n % 10]
  }

  /** The number its decimal digits stand for. */
  function DigitsValue(s: Bytes): int
    decreases |s|
  {
    if s == [] then 0 else 10 * DigitsValue(s[..|s| - 1]) + (s[|s| - 1] as int - 48)
  }

  /** Rendered numbers read back, so different numbers are rendered differently. */
  lemma {:induction false} DecimalReadsBack(n: nat)
    ensures DigitsValue(Decimal(n)) == n && Decimal(n) != [] && Decimal(n)[0] != MINUS
  {
    if n >= 10 {
      DecimalReadsBack(n / 10);
      var s := Decimal(n);
      assert s[..|s| - 1] == Decimal(n / 10);
    } else {
      assert [48 + n][..0] == [];
    }
  }

  lemma SignedDecimalIsInjective(m: int, n: int)
    requires SignedDecimal(m) == SignedDecimal(n)
    ensures m == n
  {
    DecimalReadsBack(if m < 0 then -m else m);
    DecimalReadsBack(if n < 0 then -n else n);
    if m < 0 && n < 0 {
      assert SignedDecimal(m)[1..] == Decimal(-m) && SignedDecimal(n)[1..] == Decimal(-n);
    }
  }

  function SignedDecimal(n: int): Bytes {
    if n < 0 then [MINUS] + Decimal(-n) else Decimal(n)
  }

  /** A 64-bit word read as a two's-complement number. */
  function AsSigned(n: nat): int {
    if n < TWO_63 then n else n - TWO_64
  }

  function AsWord(v: int): nat {
    v % TWO_64
  }

  // ----- the parser as functions of the remaining input; `float` renders 32 float bits -----

  function CString(s: Bytes): (r: Result<(Bytes, Bytes)>)
    ensures r.Ok? ==> |r.value.1| < |s|
  {
    if s == [] then Err
    else if s[0] == 0 then Ok(([], s[1..]))
    else
      var r := CString(s[1..]);
      if r.Ok? then Ok(([s[0]] + r.value.0, r.value.1)) else Err
  }

  /** The value of a tagged entry, rendered as text. */
  function Scalar(tag: byte, s: Bytes, float: nat -> Bytes): (r: Result<(Bytes, Bytes)>)
    ensures r.Ok? ==> |r.value.1| < |s|
  {
    if tag == TAG_STRING || tag == TAG_WIDE then CString(s)
    else if tag == TAG_INT32 || tag == TAG_COLOR || tag == TAG_POINTER then
      if |s| < 4 then Err else Ok((Decimal(LeValue(s[..4])), s[4..]))
    else if tag == TAG_FLOAT32 then
      if |s| < 4 then Err else Ok((float(LeValue(s[..4])), s[4..]))
    else if tag == TAG_UINT64 then
      if |s| < 8 then Err else Ok((Decimal(LeValue(s[..8])), s[8..]))
    else if tag == TAG_INT64 then
      if |s| < 8 then Err else Ok((SignedDecimal(AsSigned(LeValue(s[..8]))), s[8..]))
    else Err
  }

  /** Entries up to an end marker, which is consumed, or up to the end of the input. */
  function Siblings(s: Bytes, float: nat -> Bytes): (r: Result<(seq<Node>, Bytes)>)
    ensures r.Ok? ==> |r.value.1| <= |s|
    decreases |s|
  {
    if s == [] then Ok(([], []))
    else if s[0] == TAG_END then Ok(([], s[1..])) else
    var key := CString(s[1..]);
    if key.Err? then Err
    else if s[0] == TAG_SUBTREE then
      var kids := Siblings(key.value.1, float);
      if kids.Err? then Err else
      VdfText.After([VdfText.Node(key.value.0, [], kids.value.0)], Siblings(kids.value.1, float))
    else
      var value := Scalar(s[0], key.value.1, float);
      if value.Err? then Err else
      VdfText.After([VdfText.Node(key.value.0, value.value.0, [])], Siblings(value.value.1, float))
  }

  /** Input after an end marker at the outermost level is ignored. */
  function Parse(data: Bytes, float: nat -> Bytes): Result<Node> {
    var r := Siblings(data, float);
    if r.Ok? then Ok(VdfText.Node(VdfText.ROOT_KEY, [], r.value.0)) else Err
  }

  // ----- the encoder -----

  /** A typed entry. `Word` covers the three four-byte integer tags. */
  datatype Entry =
    | Subtree(key: Bytes, entries: seq<Entry>)
    | Str(key: Bytes, wide: bool, text: Bytes)
    | Word(key: Bytes, tag: byte, n: nat)
    | Float(key: Bytes, bits: nat)
    | Unsigned(key: Bytes, n: nat)
    | Signed(key: Bytes, v: int)

  ghost predicate NulFree(s: Bytes) {
    forall i :: 0 <= i < |s| ==> s[i] != 0
  }

  ghost predicate Encodable(es: seq<Entry>) {
    forall i :: 0 <= i < |es| ==> EncodableEntry(es[i])
  }

  ghost predicate EncodableEntry(e: Entry) {
    NulFree(e.key) &&
    match e
    case Subtree(_, es) => Encodable(es)
    case Str(_, _, text) => NulFree(text)
    case Word(_, tag, n) => tag in {TAG_INT32, TAG_COLOR, TAG_POINTER} && n < TWO_32
    case Float(_, bits) => bits < TWO_32
    case Unsigned(_, n) => n < TWO_64
    case Signed(_, v) => -TWO_63 <= v < TWO_63
  }

  function Encode(es: seq<Entry>): Bytes {
    if es == [] then [] else EncodeEntry(es[0]) + Encode(es[1..])
  }

  function EncodeEntry(e: Entry): Bytes {
    match e
    case Subtree(key, es) => [TAG_SUBTREE] + key + [0] + Encode(es) + [TAG_END]
    case Str(key, wide, text) => [if wide then TAG_WIDE else TAG_STRING] + key + [0] + text + [0]
    case Word(key, tag, n) => [tag] + key + [0] + Le(n, WORD)
    case Float(key, bits) => [TAG_FLOAT32] + key + [0] + Le(bits, WORD)
    case Unsigned(key, n) => [TAG_UINT64] + key + [0] + Le(n, LONG)
    case Signed(key, v) => [TAG_INT64] + key + [0] + Le(AsWord(v), LONG)
  }

  /** The tree an entry list stands for. */
  function Render(es: seq<Entry>, float: nat -> Bytes): seq<Node> {
    if es == [] then [] else [RenderEntry(es[0], float)] + Render(es[1..], float)
  }

  function RenderEntry(e: Entry, float: nat -> Bytes): Node {
    match e
    case Subtree(key, es) => VdfText.Node(key, [], Render(es, float))
    case Str(key, _, text) => VdfText.Node(key, text, [])
    case Word(key, _, n) => VdfText.Node(key, Decimal(n), [])
    case Float(key, bits) => VdfText.Node(key, float(bits), [])
    case Unsigned(key, n) => VdfText.Node(key, Decimal(n), [])
    case Signed(key, v) => VdfText.Node(key, SignedDecimal(v), [])
  }

  // ----- round trip -----

  lemma {:induction false} CStringReads(s: Bytes, rest: Bytes)
    requires NulFree(s)
    ensures CString(s + [0] + rest) == Ok((s, rest))
  {
    var t := s + [0] + rest;
    if s == [] {
      assert t == [0] + rest;
    } else {
      CStringReads(s[1..], rest);
      assert s == [s[0]] + s[1..];
      assert t[1..] == s[1..] + [0] + rest;
    }
  }

  /** Tag and payload of an entry that is not a subtree. */
  function TagOf(e: Entry): byte {
    match e
    case Subtree(_, _) => TAG_SUBTREE
    case Str(_, wide, _) => if wide then TAG_WIDE else TAG_STRING
    case Word(_, tag, _) => tag
    case Float(_, _) => TAG_FLOAT32
    case Unsigned(_, _) => TAG_UINT64
    case Signed(_, _) => TAG_INT64
  }

  function Payload(e: Entry): Bytes {
    match e
    case Subtree(_, es) => Encode(es) + [TAG_END]
    case Str(_, _, text) => text + [0]
    case Word(_, _, n) => Le(n, WORD)
    case Float(_, bits) => Le(bits, WORD)
    case Unsigned(_, n) => Le(n, LONG)
    case Signed(_, v) => Le(AsWord(v), LONG)
  }

  lemma EntryLayout(e: Entry)
    ensures EncodeEntry(e) == [TagOf(e)] + (e.key + [0] + Payload(e))
  {
    match e {
      case Subtree(key, es) => LayoutTwo([TagOf(e)], key, Encode(es), [TAG_END]);
      case Str(key, wide, text) => LayoutTwo([TagOf(e)], key, text, [0]);
      case Word(key, _, n) => LayoutOne([TagOf(e)], key, Le(n, WORD));
      case Float(key, bits) => LayoutOne([TagOf(e)], key, Le(bits, WORD));
      case Unsigned(key, n) => LayoutOne([TagOf(e)], key, Le(n, LONG));
      case Signed(key, v) => LayoutOne([TagOf(e)], key, Le(AsWord(v), LONG));
    }
  }

  lemma LayoutOne(tag: Bytes, key: Bytes, payload: Bytes)
    ensures tag + key + [0] + payload == tag + (key + [0] + payload)
  {
  }

  lemma LayoutTwo(tag: Bytes, key: Bytes, body: Bytes, end: Bytes)
    ensures tag + key + [0] + body + end == tag + (key + [0] + (body + end))
  {
    LayoutOne(tag, key, body + end);
    ConcatAssoc(tag + key + [0], body, end);
  }

  lemma EntryBefore(e: Entry, rest: Bytes)
    ensures EncodeEntry(e) + rest == [TagOf(e)] + (e.key + [0] + (Payload(e) + rest))
  {
    EntryLayout(e);
    var t, k, p := [TagOf(e)], e.key + [0], Payload(e);
    assert t + (k + p) + rest == t + (k + (p + rest));
  }

  lemma FourBytes(n: nat, rest: Bytes)
    requires n < TWO_32
    ensures (Le(n, WORD) + rest)[..4] == Le(n, WORD) && (Le(n, WORD) + rest)[4..] == rest && LeValue(Le(n, WORD)) == n
  {
    Le4RoundTrip(n);
  }

  lemma EightBytes(n: nat, rest: Bytes)
    requires n < TWO_64
    ensures (Le(n, LONG) + rest)[..8] == Le(n, LONG) && (Le(n, LONG) + rest)[8..] == rest && LeValue(Le(n, LONG)) == n
  {
    Le8RoundTrip(n);
  }

  lemma {:induction false} FourByteScalar(tag: byte, n: nat, rest: Bytes, float: nat -> Bytes)
    requires n < TWO_32 && tag in {TAG_INT32, TAG_COLOR, TAG_POINTER, TAG_FLOAT32}
    ensures Scalar(tag, Le(n, WORD) + rest, float) == Ok((if tag == TAG_FLOAT32 then float(n) else Decimal(n), rest))
  {
    FourBytes(n, rest);
  }

  lemma {:induction false} EightByteScalar(tag: byte, n: nat, rest: Bytes, float: nat -> Bytes)
    requires n < TWO_64 && tag in {TAG_UINT64, TAG_INT64}
    ensures Scalar(tag, Le(n, LONG) + rest, float) ==
            Ok((if tag == TAG_UINT64 then Decimal(n) else SignedDecimal(AsSigned(n)), rest))
  {
    EightBytes(n, rest);
  }

  lemma WordIsSigned(v: int)
    requires -TWO_63 <= v < TWO_63
    ensures AsWord(v) < TWO_64 && AsSigned(AsWord(v)) == v
  {
    if v < 0 {
      RemainderIs(v, -1, v + TWO_64, TWO_64);
    }
  }

  lemma SignedScalar(v: int, rest: Bytes, float: nat -> Bytes)
    requires -TWO_63 <= v < TWO_63
    ensures Scalar(TAG_INT64, Le(AsWord(v), LONG) + rest, float) == Ok((SignedDecimal(v), rest))
  {
    WordIsSigned(v);
    EightByteScalar(TAG_INT64, AsWord(v), rest, float);
  }

  lemma TextScalar(tag: byte, text: Bytes, rest: Bytes, float: nat -> Bytes)
    requires NulFree(text) && tag in {TAG_STRING, TAG_WIDE}
    ensures Scalar(tag, text + [0] + rest, float) == Ok((text, rest))
  {
    CStringReads(text, rest);
  }

  lemma ScalarReads(e: Entry, rest: Bytes, float: nat -> Bytes)
    requires EncodableEntry(e) && !e.Subtree?
    ensures Scalar(TagOf(e), Payload(e) + rest, float) == Ok((RenderEntry(e, float).value, rest))
  {
    match e {
      case Str(_, _, text) => TextScalar(TagOf(e), text, rest, float);
      case Word(_, tag, n) => FourByteScalar(tag, n, rest, float);
      case Float(_, bits) => FourByteScalar(TAG_FLOAT32, bits, rest, float);
      case Unsigned(_, n) => EightByteScalar(TAG_UINT64, n, rest, float);
      case Signed(_, v) => SignedScalar(v, rest, float);
    }
  }

  /** One round of the parser on an encoded key. */
  lemma KeyReads(tag: byte, key: Bytes, more: Bytes)
    requires NulFree(key)
    ensures CString(([tag] + (key + [0] + more))[1..]) == Ok((key, more))
  {
    CStringReads(key, more);
    assert ([tag] + (key + [0] + more))[1..] == key + [0] + more;
  }

  lemma ScalarParses(e: Entry, rest: Bytes, float: nat -> Bytes)
    requires EncodableEntry(e) && !e.Subtree?
    ensures Siblings(EncodeEntry(e) + rest, float) ==
            VdfText.After([RenderEntry(e, float)], Siblings(rest, float))
  {
    EntryBefore(e, rest);
    KeyReads(TagOf(e), e.key, Payload(e) + rest);
    ScalarReads(e, rest, float);
  }

  lemma SubtreeParses(key: Bytes, inside: Bytes, kids: seq<Node>, rest: Bytes, float: nat -> Bytes)
    requires NulFree(key) && Siblings(inside, float) == Ok((kids, rest))
    ensures Siblings([TAG_SUBTREE] + (key + [0] + inside), float) ==
            VdfText.After([VdfText.Node(key, [], kids)], Siblings(rest, float))
  {
    KeyReads(TAG_SUBTREE, key, inside);
  }

  lemma SubtreeEntryParses(e: Entry, rest: Bytes, float: nat -> Bytes)
    requires EncodableEntry(e) && e.Subtree?
    requires Siblings(Encode(e.entries) + ([TAG_END] + rest), float) ==
             VdfText.After(Render(e.entries, float), Siblings([TAG_END] + rest, float))
    ensures Siblings(EncodeEntry(e) + rest, float) ==
            VdfText.After([RenderEntry(e, float)], Siblings(rest, float))
  {
    var inside := Encode(e.entries) + ([TAG_END] + rest);
    EndMarkerReads(rest, float);
    VdfText.AfterAtEnd(Render(e.entries, float), rest);
    SubtreeParses(e.key, inside, Render(e.entries, float), rest, float);
    EntryBefore(e, rest);
    ConcatAssoc(Encode(e.entries), [TAG_END], rest);
  }

  lemma EndMarkerReads(rest: Bytes, float: nat -> Bytes)
    ensures Siblings([TAG_END] + rest, float) == Ok(([], rest))
  {
    assert ([TAG_END] + rest)[1..] == rest;
  }

  /** Encoded entries in front of any input parse first. */
  lemma {:induction false} EncodedFront(es: seq<Entry>, tail: Bytes, float: nat -> Bytes)
    requires Encodable(es)
    ensures Siblings(Encode(es) + tail, float) == VdfText.After(Render(es, float), Siblings(tail, float))
    decreases es
  {
    if es == [] {
      assert Encode(es) + tail == tail;
      VdfText.AfterEmpty([], Siblings(tail, float));
    } else {
      var e, rest := es[0], Encode(es[1..]) + tail;
      assert Encode(es) + tail == EncodeEntry(e) + rest;
      EncodedFront(es[1..], tail, float);
      if e.Subtree? {
        EncodedFront(e.entries, [TAG_END] + rest, float);
        SubtreeEntryParses(e, rest, float);
      } else {
        ScalarParses(e, rest, float);
      }
      AfterAssoc(RenderEntry(e, float), Render(es[1..], float), Siblings(tail, float));
    }
  }

  lemma AfterAssoc(n: Node, more: seq<Node>, r: Result<(seq<Node>, Bytes)>)
    ensures VdfText.After([n], VdfText.After(more, r)) == VdfText.After([n] + more, r)
  {
    if r.Ok? {
      assert [n] + (more + r.value.0) == [n] + more + r.value.0;
    }
  }

  /** The whole document with its end marker parses back, whatever follows. */
  lemma {:induction false} ParseInvertsEncode(es: seq<Entry>, rest: Bytes, float: nat -> Bytes)
    requires Encodable(es)
    ensures Parse(Encode(es) + [TAG_END] + rest, float) ==
            Ok(VdfText.Node(VdfText.ROOT_KEY, [], Render(es, float)))
  {
    EncodedFront(es, [TAG_END] + rest, float);
    assert Encode(es) + [TAG_END] + rest == Encode(es) + ([TAG_END] + rest);
    EndMarkerReads(rest, float);
    VdfText.AfterAtEnd(Render(es, float), rest);
  }

  // ----- what each tag byte means -----

  /** A document that is one entry with a value. */
  lemma OneField(tag: byte, key: Bytes, payload: Bytes, value: Bytes, float: nat -> Bytes)
    requires NulFree(key) && tag != TAG_SUBTREE && tag != TAG_END && Scalar(tag, payload, float) == Ok((value, []))
    ensures Parse([tag] + (key + [0] + payload), float) ==
            Ok(VdfText.Node([114, 111, 111, 116], [], [VdfText.Node(key, value, [])]))
  {
    KeyReads(tag, key, payload);
    VdfText.AfterAtEnd([VdfText.Node(key, value, [])], []);
    assert Siblings([], float) == Ok(([], []));
  }

  /** Tags 1 and 5 are strings up to a zero byte. */
  lemma TextField(tag: byte, key: Bytes, text: Bytes, float: nat -> Bytes)
    requires tag in {1, 5} && 0 !in key && 0 !in text
    ensures Parse([tag] + (key + [0] + (text + [0])), float) ==
            Ok(VdfText.Node([114, 111, 111, 116], [], [VdfText.Node(key, text, [])]))
  {
    CStringReads(text, []);
    assert text + [0] + [] == text + [0];
    OneField(tag, key, text + [0], text, float);
  }

  /** Tags 2, 4 and 6 are words, low byte first, and tag 3 is a float. */
  lemma WordField(tag: byte, key: Bytes, s: Bytes, float: nat -> Bytes)
    requires tag in {2, 3, 4, 6} && 0 !in key && |s| == 4
    ensures
      var n := LeValue(s);
      Parse([tag] + (key + [0] + s), float) ==
      Ok(VdfText.Node([114, 111, 111, 116], [], [VdfText.Node(key, if tag == 3 then float(n) else Decimal(n), [])]))
  {
    assert s[..4] == s && s[4..] == [];
    OneField(tag, key, s, if tag == 3 then float(LeValue(s)) else Decimal(LeValue(s)), float);
  }

  /** Tag 7 is a long word, and tag 10 the same as a two's-complement number. */
  lemma LongField(tag: byte, key: Bytes, n: nat, float: nat -> Bytes)
    requires tag in {7, 10} && 0 !in key && n < 0x1_0000_0000_0000_0000
    ensures
      Parse([tag] + (key + [0] + Le(n, 8)), float) ==
      Ok(VdfText.Node([114, 111, 111, 116], [],
                      [VdfText.Node(key, if tag == 10 && n >= 0x8000_0000_0000_0000
                                         then [45] + Decimal(0x1_0000_0000_0000_0000 - n) else Decimal(n), [])]))
  {
    EightByteScalar(tag, n, [], float);
    assert Le(n, 8) + [] == Le(n, 8);
    OneField(tag, key, Le(n, 8), if tag == 10 then SignedDecimal(AsSigned(n)) else Decimal(n), float);
  }

  /** No other tag is known, and a number needs all its bytes. */
  lemma BadFieldIsRejected(tag: byte, key: Bytes, s: Bytes, float: nat -> Bytes)
    requires 0 !in key && tag !in {0, 8}
    requires tag !in {1, 2, 3, 4, 5, 6, 7, 10} || (tag in {2, 3, 4, 6} && |s| < 4) || (tag in {7, 10} && |s| < 8) ||
             (tag in {1, 5} && 0 !in s)
    ensures Parse([tag] + (key + [0] + s), float).Err?
  {
    KeyReads(tag, key, s);
    if 0 !in s {
      Unterminated(s);
    }
  }

  /** A subtree `a` with an entry `b`, number 513: tag 0 opens it and tag 8 ends it. */
  lemma SubtreeExample(float: nat -> Bytes)
    ensures Parse([0, 97, 0, 2, 98, 0, 1, 2, 0, 0, 8, 8], float) ==
            Ok(VdfText.Node([114, 111, 111, 116], [], [VdfText.Node([97], [], [VdfText.Node([98], [53, 49, 51], [])])]))
  {
    var inside := [2, 98, 0, 1, 2, 0, 0, 8, 8];
    InsideExample(float);
    assert [0] + ([97] + [0] + inside) == [0, 97, 0, 2, 98, 0, 1, 2, 0, 0, 8, 8] && NulFree([97]);
    SubtreeParses([97], inside, [VdfText.Node([98], [53, 49, 51], [])], [8], float);
    EndMarkerReads([], float);
    VdfText.AfterAtEnd([VdfText.Node([97], [], [VdfText.Node([98], [53, 49, 51], [])])], []);
  }

  lemma InsideExample(float: nat -> Bytes)
    ensures Siblings([2, 98, 0, 1, 2, 0, 0, 8, 8], float) == Ok(([VdfText.Node([98], [53, 49, 51], [])], [8]))
  {
    var rest := [8, 8];
    FourBytes(513, rest);
    assert Decimal(513) == [53, 49, 51] && Le(513, WORD) + rest == [1, 2, 0, 0, 8, 8];
    KeyReads(2, [98], [1, 2, 0, 0, 8, 8]);
    assert [2] + ([98] + [0] + [1, 2, 0, 0, 8, 8]) == [2, 98, 0, 1, 2, 0, 0, 8, 8];
    EndMarkerReads([8], float);
    VdfText.AfterAtEnd([VdfText.Node([98], [53, 49, 51], [])], [8]);
  }

  // ----- missing end markers -----

  /** How many end markers stand at the end of a document. */
  function EndMarkers(es: seq<Entry>): nat
    decreases es
  {
    1 + if es != [] && es[|es| - 1].Subtree? then EndMarkers(es[|es| - 1].entries) else 0
  }

  lemma EncodeCons(e: Entry, more: seq<Entry>)
    ensures Encode([e] + more) == EncodeEntry(e) + Encode(more)
  {
    assert ([e] + more)[1..] == more;
  }

  lemma {:induction false} EncodeSplit(front: seq<Entry>, last: Entry)
    ensures Encode(front + [last]) == Encode(front) + EncodeEntry(last)
  {
    if front == [] {
      assert front + [last] == [last];
      EncodeCons(last, []);
    } else {
      EncodeSplit(front[1..], last);
      assert front + [last] == [front[0]] + (front[1..] + [last]);
      EncodeCons(front[0], front[1..] + [last]);
      ConcatAssoc(EncodeEntry(front[0]), Encode(front[1..]), EncodeEntry(last));
    }
  }

  lemma {:induction false} RenderSplit(front: seq<Entry>, last: Entry, float: nat -> Bytes)
    ensures Render(front + [last], float) == Render(front, float) + [RenderEntry(last, float)]
  {
    if front == [] {
      assert [last][1..] == [] && front + [last] == [last];
    } else {
      RenderSplit(front[1..], last, float);
      assert (front + [last])[1..] == front[1..] + [last];
    }
  }

  function Dropped(s: Bytes, n: nat): Bytes
    requires n <= |s|
  {
    s[..|s| - n]
  }

  lemma {:induction false} EncodeHasMarkers(es: seq<Entry>)
    ensures EndMarkers(es) <= |Encode(es)| + 1
    decreases es
  {
    if es != [] {
      var front, last := es[..|es| - 1], es[|es| - 1];
      assert es == front + [last];
      EncodeSplit(front, last);
      if last.Subtree? {
        EncodeHasMarkers(last.entries);
      }
    }
  }

  /** A document whose last entry is a subtree that lacks `n` of its own end markers. */
  lemma {:induction false} OpenSubtreeParses(front: seq<Entry>, last: Entry, n: nat, float: nat -> Bytes)
    requires Encodable(front) && EncodableEntry(last) && last.Subtree?
    requires n <= |Encode(last.entries)| + 1
    requires Siblings(Dropped(Encode(last.entries) + [TAG_END], n), float) == Ok((Render(last.entries, float), []))
    ensures n + 1 <= |Encode(front + [last]) + [TAG_END]|
    ensures Siblings(Dropped(Encode(front + [last]) + [TAG_END], n + 1), float) ==
            Ok((Render(front + [last], float), []))
  {
    OpenLayout(front, last, n);
    RenderSplit(front, last, float);
    var inside := Dropped(Encode(last.entries) + [TAG_END], n);
    SubtreeParses(last.key, inside, Render(last.entries, float), [], float);
    VdfText.AfterAtEnd([RenderEntry(last, float)], []);
    EncodedFront(front, [TAG_SUBTREE] + (last.key + [0] + inside), float);
  }

  lemma OpenLayout(front: seq<Entry>, last: Entry, n: nat)
    requires last.Subtree? && n <= |Encode(last.entries)| + 1
    ensures n + 1 <= |Encode(front + [last]) + [TAG_END]|
    ensures Dropped(Encode(front + [last]) + [TAG_END], n + 1) ==
            Encode(front) + ([TAG_SUBTREE] + (last.key + [0] + Dropped(Encode(last.entries) + [TAG_END], n)))
  {
    EncodeSplit(front, last);
    EntryLayout(last);
    DroppedOpens(Encode(front), [TAG_SUBTREE], last.key + [0], Encode(last.entries) + [TAG_END], n);
  }

  lemma DroppedOpens(f: Bytes, t: Bytes, k: Bytes, back: Bytes, n: nat)
    requires n <= |back|
    ensures Dropped(f + (t + (k + back)) + [TAG_END], n + 1) == f + (t + (k + Dropped(back, n)))
  {
    assert k + Dropped(back, n) == Dropped(k + back, n);
    assert t + Dropped(k + back, n) == Dropped(t + (k + back), n);
    assert f + Dropped(t + (k + back), n) == Dropped(f + (t + (k + back)), n);
  }

  /** End of input closes every open subtree: any number of the trailing markers may be missing. */
  lemma {:induction false} MissingMarkersAreHarmless(es: seq<Entry>, n: nat, float: nat -> Bytes)
    requires Encodable(es) && n <= EndMarkers(es)
    ensures n <= |Encode(es) + [TAG_END]|
    ensures Siblings(Dropped(Encode(es) + [TAG_END], n), float) == Ok((Render(es, float), []))
    ensures Parse(Dropped(Encode(es) + [TAG_END], n), float) == Parse(Encode(es) + [TAG_END], float)
    decreases es
  {
    EncodeHasMarkers(es);
    EncodedFront(es, [TAG_END], float);
    EndMarkerReads([], float);
    assert [TAG_END] + [] == [TAG_END];
    VdfText.AfterAtEnd(Render(es, float), []);
    var s := Encode(es) + [TAG_END];
    if n == 0 {
      assert Dropped(s, 0) == s;
    } else if n == 1 {
      EncodedFront(es, [], float);
      assert Dropped(s, 1) == Encode(es) + [];
    } else {
      var front, last := es[..|es| - 1], es[|es| - 1];
      assert es == front + [last];
      MissingMarkersAreHarmless(last.entries, n - 1, float);
      OpenSubtreeParses(front, last, n - 1, float);
    }
  }

  // ----- the parser with its cursor -----

  class BinaryVdfParser {
    const data: Bytes
    const float: nat -> Bytes
    var pos: nat

    constructor (data: Bytes, float: nat -> Bytes)
      ensures this.data == data && this.float == float && pos == 0
    {
      this.data, this.float := data, float;
      pos := 0;
    }

    ghost predicate Valid()
      reads this
    {
      pos <= |data|
    }

    ghost function Rest(): Bytes
      reads this
      requires Valid()
    {
      data[pos..]
    }

    method ReadCString() returns (r: Result<Bytes>)
      requires Valid()
      modifies this
      ensures Valid() && old(pos) <= pos && (r.Ok? ==> old(pos) < pos)
      ensures match CString(old(Rest()))
              case Err => r.Err?
              case Ok((s, rest)) => r == Ok(s) && Rest() == rest
    {
      var start := pos;
      while pos < |data|
        invariant Valid() && start <= pos
        invariant forall i :: start <= i < pos ==> data[i] != 0
      {
        if data[pos] == 0 {
          var s := data[start..pos];
          CStringReads(s, data[pos + 1..]);
          assert data[start..] == s + [0] + data[pos + 1..];
          pos := pos + 1;
          return Ok(s);
        }
        pos := pos + 1;
      }
      Unterminated(data[start..]);
      return Err;
    }

    method ReadScalar(tag: byte) returns (r: Result<Bytes>)
      requires Valid()
      modifies this
      ensures Valid() && old(pos) <= pos && (r.Ok? ==> old(pos) < pos)
      ensures match Scalar(tag, old(Rest()), float)
              case Err => r.Err?
              case Ok((s, rest)) => r == Ok(s) && Rest() == rest
    {
      if tag == TAG_STRING || tag == TAG_WIDE {
        r := ReadCString();
      } else if tag == TAG_INT32 || tag == TAG_FLOAT32 || tag == TAG_COLOR || tag == TAG_POINTER {
        if pos + 4 > |data| {
          return Err;
        }
        var v := LeValue(data[pos..pos + 4]);
        assert data[pos..pos + 4] == Rest()[..4] && data[pos + 4..] == Rest()[4..];
        pos := pos + 4;
        r := Ok(if tag == TAG_FLOAT32 then float(v) else Decimal(v));
      } else if tag == TAG_UINT64 || tag == TAG_INT64 {
        if pos + 8 > |data| {
          return Err;
        }
        var v := LeValue(data[pos..pos + 8]);
        assert data[pos..pos + 8] == Rest()[..8] && data[pos + 8..] == Rest()[8..];
        pos := pos + 8;
        r := Ok(if tag == TAG_UINT64 then Decimal(v) else SignedDecimal(AsSigned(v)));
      } else {
        r := Err;
      }
    }

    method ParseChildren() returns (r: Result<seq<Node>>)
      requires Valid()
      modifies this
      ensures Valid() && old(pos) <= pos
      ensures match Siblings(old(Rest()), float)
              case Err => r.Err?
              case Ok((nodes, rest)) => r == Ok(nodes) && Rest() == rest
      decreases |data| - pos, 1
    {
      var children: seq<Node> := [];
      VdfText.AfterEmpty(children, Siblings(Rest(), float));
      while pos < |data|
        invariant Valid() && old(pos) <= pos
        invariant Siblings(old(Rest()), float) == VdfText.After(children, Siblings(Rest(), float))
        decreases |data| - pos
      {
        if data[pos] == TAG_END {
          EndMarkerReads(data[pos + 1..], float);
          assert Rest() == [TAG_END] + data[pos + 1..];
          pos := pos + 1;
          VdfText.AfterAtEnd(children, Rest());
          return Ok(children);
        }
        var node := ReadEntry();
        if node.Err? {
          return Err;
        }
        VdfText.AfterAfter(children, node.value, Siblings(Rest(), float));
        children := children + [node.value];
      }
      VdfText.AfterAtEnd(children, Rest());
      return Ok(children);
    }

    /** One round of `ParseChildren` on a tag other than the end marker. */
    method ReadEntry() returns (r: Result<Node>)
      requires Valid() && pos < |data| && data[pos] != TAG_END
      modifies this
      ensures Valid() && old(pos) < pos
      ensures if r.Err? then Siblings(old(Rest()), float).Err?
              else Siblings(old(Rest()), float) == VdfText.After([r.value], Siblings(Rest(), float))
      decreases |data| - pos, 0
    {
      var tag := data[pos];
      assert Rest()[1..] == data[pos + 1..];
      pos := pos + 1;
      var key := ReadCString();
      if key.Err? {
        return Err;
      }
      if tag == TAG_SUBTREE {
        var kids := ParseChildren();
        if kids.Err? {
          return Err;
        }
        r := Ok(VdfText.Node(key.value, [], kids.value));
      } else {
        var value := ReadScalar(tag);
        if value.Err? {
          return Err;
        }
        r := Ok(VdfText.Node(key.value, value.value, []));
      }
    }
  }

  lemma {:induction false} Unterminated(s: Bytes)
    requires NulFree(s)
    ensures CString(s).Err?
  {
    if s != [] {
      Unterminated(s[1..]);
    }
  }

  method ParseBinaryVdf(data: Bytes, float: nat -> Bytes) returns (r: Result<Node>)
    ensures r == Parse(data, float)
  {
    var p := new BinaryVdfParser(data, float);
    assert p.Rest() == data;
    var children := p.ParseChildren();
    r := if children.Ok? then Ok(VdfText.Node(VdfText.ROOT_KEY, [], children.value)) else Err;
  }
}
