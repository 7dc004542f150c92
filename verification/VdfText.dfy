/** The text form of Valve's key-value trees: the parser, and its inverse as a printer. */
module VdfText {
  import opened Common

  /** A node has a value (leaf) or children (branch). */
  datatype Node = Node(key: seq<byte>, value: seq<byte>, children: seq<Node>)

  const QUOTE: byte := 34
  const BACKSLASH: byte := 92
  const OPEN: byte := 123
  const CLOSE: byte := 125
  const NEWLINE: byte := 10
  const TAB: byte := 9
  const LETTER_N: byte := 110
  const LETTER_T: byte := 116

  /** White space among the characters with code below 256. */
  predicate IsSpace(b: byte) {
    b == 9 || b == 10 || b == 11 || b == 12 || b == 13 || b == 32 || b == 0x85 || b == 0xA0
  }

  // ----- the parser as functions of the remaining input -----

  function SkipSpace(s: Bytes): (r: Bytes)
    ensures |r| <= |s|
    ensures r != [] ==> !IsSpace(r[0])
    ensures s != [] && !IsSpace(s[0]) ==> r == s
  {
    if s != [] && IsSpace(s[0]) then SkipSpace(s[1..]) else s
  }

  /** After the opening quote: the string and what follows the closing quote. */
  function Quoted(s: Bytes): (r: Result<(Bytes, Bytes)>)
    ensures r.Ok? ==> |r.value.1| < |s|
    decreases |s|
  {
    if s == [] then Err
    else if s[0] == BACKSLASH && |s| > 1 then
      if s[1] == QUOTE || s[1] == BACKSLASH then Prefixed(s[1], Quoted(s[2..]))
      else if s[1] == LETTER_N then Prefixed(NEWLINE, Quoted(s[2..]))
      else if s[1] == LETTER_T then Prefixed(TAB, Quoted(s[2..]))
      else Prefixed(s[0], Quoted(s[1..]))
    else if s[0] == QUOTE then Ok(([], s[1..]))
    else Prefixed(s[0], Quoted(s[1..]))
  }

  function Prefixed(b: byte, r: Result<(Bytes, Bytes)>): Result<(Bytes, Bytes)> {
    if r.Ok? then Ok(([b] + r.value.0, r.value.1)) else Err
  }

  predicate EndsUnquoted(b: byte) {
    IsSpace(b) || b == OPEN || b == CLOSE
  }

  function UnquotedLength(s: Bytes): (n: nat)
    ensures n <= |s|
  {
    if s == [] || EndsUnquoted(s[0]) then 0 else 1 + UnquotedLength(s[1..])
  }

  function Unquoted(s: Bytes): (r: (Bytes, Bytes))
    ensures s != [] && !EndsUnquoted(s[0]) ==> |r.1| < |s|
    ensures s != [] && EndsUnquoted(s[0]) ==> r == ([], s)
  {
    var n := UnquotedLength(s);
    (s[..n], s[n..])
  }

  lemma {:induction false} UnquotedLengthIs(s: Bytes, n: nat)
    requires n <= |s| && (n == |s| || EndsUnquoted(s[n]))
    requires forall i :: 0 <= i < n ==> !EndsUnquoted(s[i])
    ensures UnquotedLength(s) == n
  {
    if n > 0 {
      UnquotedLengthIs(s[1..], n - 1);
    }
  }

  function Token(s: Bytes): (r: Result<(Bytes, Bytes)>)
    ensures r.Ok? ==> |r.value.1| <= |s|
    ensures r.Ok? && s != [] && !EndsUnquoted(s[0]) ==> |r.value.1| < |s|
    ensures s != [] && s[0] == OPEN ==> r == Ok(([], s))
  {
    var t := SkipSpace(s);
    if t == [] then Err
    else if t[0] == QUOTE then Quoted(t[1..])
    else Ok(Unquoted(t))
  }

  /** Sibling nodes up to a closing brace or the end, and the input from there on. */
  function Siblings(s: Bytes): (r: Result<(seq<Node>, Bytes)>)
    ensures r.Ok? ==> |r.value.1| <= |s|
    decreases |s|
  {
    var s1 := SkipSpace(s);
    if s1 == [] || s1[0] == CLOSE then Ok(([], s1)) else
    var key := Token(s1);
    if key.Err? then Err else
    var s2 := SkipSpace(key.value.1);
    if s2 == [] then Err
    else if s2[0] == OPEN then
      var kids := Siblings(s2[1..]);
      if kids.Err? then Err else
      After([Node(key.value.0, [], kids.value.0)], Siblings(AfterClose(kids.value.1)))
    else
      var value := Token(s2);
      if value.Err? then Err else
      After([Node(key.value.0, value.value.0, [])], Siblings(value.value.1))
  }

  function After(front: seq<Node>, r: Result<(seq<Node>, Bytes)>): Result<(seq<Node>, Bytes)> {
    if r.Ok? then Ok((front + r.value.0, r.value.1)) else Err
  }

  /** A closing brace is taken if it is there. */
  function AfterClose(s: Bytes): (r: Bytes)
    ensures |r| <= |s|
  {
    var t := SkipSpace(s);
    if t != [] && t[0] == CLOSE then t[1..] else t
  }

  const ROOT_KEY: Bytes := [114, 111, 111, 116]

  /** What follows an unmatched closing brace is ignored. */
  function Parse(input: Bytes): Result<Node> {
    var r := Siblings(input);
    if r.Ok? then Ok(Node(ROOT_KEY, [], r.value.0)) else Err
  }

  // ----- the printer -----

  function Escaped(s: Bytes): Bytes {
    if s == [] then []
    else if s[0] == QUOTE || s[0] == BACKSLASH then [BACKSLASH, s[0]] + Escaped(s[1..])
    else if s[0] == NEWLINE then [BACKSLASH, LETTER_N] + Escaped(s[1..])
    else if s[0] == TAB then [BACKSLASH, LETTER_T] + Escaped(s[1..])
    else [s[0]] + Escaped(s[1..])
  }

  function InQuotes(s: Bytes): Bytes {
    [QUOTE] + Escaped(s) + [QUOTE]
  }

  /** Nodes printed in order; `pad` is the white space put between any two tokens. */
  function Print(nodes: seq<Node>, pad: Bytes): Bytes {
    if nodes == [] then [] else PrintNode(nodes[0], pad) + Print(nodes[1..], pad)
  }

  function PrintNode(n: Node, pad: Bytes): Bytes {
    pad + InQuotes(n.key) + pad +
    if n.children == [] then InQuotes(n.value)
    else [OPEN] + Print(n.children, pad) + pad + [CLOSE]
  }

  ghost predicate AllSpace(s: Bytes) {
    forall i :: 0 <= i < |s| ==> IsSpace(s[i])
  }

  /** A value or children, but not both, all the way down. */
  ghost predicate Normal(nodes: seq<Node>) {
    forall i :: 0 <= i < |nodes| ==> NormalNode(nodes[i])
  }

  ghost predicate NormalNode(n: Node) {
    (n.value == [] || n.children == []) && Normal(n.children)
  }

  // ----- round trip -----

  lemma {:induction false} SkipsPad(pad: Bytes, s: Bytes)
    requires AllSpace(pad)
    ensures SkipSpace(pad + s) == SkipSpace(s)
  {
    if pad == [] {
      assert pad + s == s;
    } else {
      SkipsPad(pad[1..], s);
      assert (pad + s)[1..] == pad[1..] + s;
    }
  }

  lemma {:induction false} QuotedInvertsEscaped(s: Bytes, rest: Bytes)
    ensures Quoted(Escaped(s) + [QUOTE] + rest) == Ok((s, rest))
  {
    var t := Escaped(s) + [QUOTE] + rest;
    if s == [] {
      assert t == [QUOTE] + rest;
    } else {
      QuotedInvertsEscaped(s[1..], rest);
      var tail := Escaped(s[1..]) + [QUOTE] + rest;
      assert s == [s[0]] + s[1..];
      if s[0] == QUOTE || s[0] == BACKSLASH || s[0] == NEWLINE || s[0] == TAB {
        EscapePair(s, rest);
      } else {
        assert t[1..] == tail;
      }
    }
  }

  lemma EscapePair(s: Bytes, rest: Bytes)
    requires s != [] && (s[0] == QUOTE || s[0] == BACKSLASH || s[0] == NEWLINE || s[0] == TAB)
    ensures Quoted(Escaped(s) + [QUOTE] + rest) == Prefixed(s[0], Quoted(Escaped(s[1..]) + [QUOTE] + rest))
  {
    var t := Escaped(s) + [QUOTE] + rest;
    assert t[2..] == Escaped(s[1..]) + [QUOTE] + rest;
  }

  lemma TokenReadsQuoted(s: Bytes, rest: Bytes)
    ensures Token(InQuotes(s) + rest) == Ok((s, rest))
  {
    var t := InQuotes(s) + rest;
    assert t[1..] == Escaped(s) + [QUOTE] + rest;
    QuotedInvertsEscaped(s, rest);
  }

  lemma LeafLayout(key: Bytes, value: Bytes, pad: Bytes, more: Bytes)
    ensures PrintNode(Node(key, value, []), pad) + more == pad + (InQuotes(key) + (pad + (InQuotes(value) + more)))
  {
    var k, v := InQuotes(key), InQuotes(value);
    assert PrintNode(Node(key, value, []), pad) == pad + k + pad + v;
    ConcatAssoc(pad + k + pad, v, more);
    ConcatAssoc(pad + k, pad, v + more);
    ConcatAssoc(pad, k, pad + (v + more));
  }

  lemma LeafParses(key: Bytes, value: Bytes, pad: Bytes, more: Bytes)
    requires AllSpace(pad)
    ensures Siblings(PrintNode(Node(key, value, []), pad) + more) == After([Node(key, value, [])], Siblings(more))
  {
    var s2 := InQuotes(value) + more;
    var s1 := InQuotes(key) + (pad + s2);
    LeafLayout(key, value, pad, more);
    SkipsPad(pad, s1);
    TokenReadsQuoted(key, pad + s2);
    SkipsPad(pad, s2);
    TokenReadsQuoted(value, more);
  }

  lemma {:induction false} BranchStep(s: Bytes, s1: Bytes, key: Bytes, s2: Bytes, inside: Bytes, kids: seq<Node>,
                                      end: Bytes)
    requires SkipSpace(s) == s1 && s1 != [] && s1[0] != CLOSE
    requires Token(s1) == Ok((key, s2)) && SkipSpace(s2) == [OPEN] + inside
    requires Siblings(inside) == Ok((kids, end))
    ensures Siblings(s) == After([Node(key, [], kids)], Siblings(AfterClose(end)))
  {
    assert ([OPEN] + inside)[1..] == inside;
  }

  lemma BranchParses(key: Bytes, kids: seq<Node>, pad: Bytes, more: Bytes)
    requires AllSpace(pad) && kids != []
    requires Siblings(Print(kids, pad) + (pad + ([CLOSE] + more))) == Ok((kids, [CLOSE] + more))
    ensures Siblings(PrintNode(Node(key, [], kids), pad) + more) == After([Node(key, [], kids)], Siblings(more))
  {
    var inside := Print(kids, pad) + (pad + ([CLOSE] + more));
    var s2 := [OPEN] + inside;
    var s1 := InQuotes(key) + (pad + s2);
    BranchLayout(key, kids, pad, more);
    SkipsPad(pad, s1);
    TokenReadsQuoted(key, pad + s2);
    SkipsPad(pad, s2);
    BranchStep(pad + s1, s1, key, pad + s2, inside, kids, [CLOSE] + more);
    assert AfterClose([CLOSE] + more) == more;
  }

  lemma BranchLayout(key: Bytes, kids: seq<Node>, pad: Bytes, more: Bytes)
    requires kids != []
    ensures PrintNode(Node(key, [], kids), pad) + more ==
            pad + (InQuotes(key) + (pad + ([OPEN] + (Print(kids, pad) + (pad + ([CLOSE] + more))))))
  {
    var k, p := InQuotes(key), Print(kids, pad);
    assert PrintNode(Node(key, [], kids), pad) == pad + k + pad + ([OPEN] + p + pad + [CLOSE]);
    assert pad + k + pad + ([OPEN] + p + pad + [CLOSE]) + more ==
           pad + (k + (pad + ([OPEN] + (p + (pad + ([CLOSE] + more))))));
  }

  /** Printed siblings, followed by nothing or by a closing brace, parse back. */
  lemma {:induction false} SiblingsInvertPrint(nodes: seq<Node>, pad: Bytes, tail: Bytes)
    requires Normal(nodes) && AllSpace(pad)
    requires SkipSpace(tail) == [] || SkipSpace(tail)[0] == CLOSE
    ensures Siblings(Print(nodes, pad) + tail) == Ok((nodes, SkipSpace(tail)))
    decreases nodes
  {
    if nodes == [] {
      assert Print(nodes, pad) + tail == tail;
    } else {
      var n, more := nodes[0], Print(nodes[1..], pad) + tail;
      SiblingsInvertPrint(nodes[1..], pad, tail);
      assert nodes == [n] + nodes[1..];
      assert Print(nodes, pad) == PrintNode(n, pad) + Print(nodes[1..], pad);
      ConcatAssoc(PrintNode(n, pad), Print(nodes[1..], pad), tail);
      if n.children == [] {
        LeafParses(n.key, n.value, pad, more);
      } else {
        var inner := pad + ([CLOSE] + more);
        SkipsPad(pad, [CLOSE] + more);
        SiblingsInvertPrint(n.children, pad, inner);
        BranchParses(n.key, n.children, pad, more);
      }
    }
  }

  /** Parsing the quoted-and-escaped printing of a forest returns it. */
  lemma {:induction false} ParseInvertsPrint(nodes: seq<Node>, pad: Bytes)
    requires Normal(nodes) && AllSpace(pad)
    ensures Parse(Print(nodes, pad)) == Ok(Node(ROOT_KEY, [], nodes))
  {
    SiblingsInvertPrint(nodes, pad, []);
    assert Print(nodes, pad) + [] == Print(nodes, pad);
  }

  /** Only trees of that shape come out of the parser, whatever the input. */
  lemma {:induction false} SiblingsAreNormal(s: Bytes)
    ensures Siblings(s).Ok? ==> Normal(Siblings(s).value.0)
    decreases |s|
  {
    var s1 := SkipSpace(s);
    if s1 != [] && s1[0] != CLOSE && Token(s1).Ok? {
      var s2 := SkipSpace(Token(s1).value.1);
      if s2 != [] && s2[0] == OPEN {
        SiblingsAreNormal(s2[1..]);
        if Siblings(s2[1..]).Ok? {
          SiblingsAreNormal(AfterClose(Siblings(s2[1..]).value.1));
        }
      } else if s2 != [] && Token(s2).Ok? {
        SiblingsAreNormal(Token(s2).value.1);
      }
    }
  }

  /** Printing any accepted input's tree and parsing again changes nothing. */
  lemma PrintingIsFaithful(input: Bytes, pad: Bytes)
    requires Parse(input).Ok? && AllSpace(pad)
    ensures Parse(Print(Parse(input).value.children, pad)) == Parse(input)
  {
    SiblingsAreNormal(input);
    ParseInvertsPrint(Parse(input).value.children, pad);
  }

  // ----- the bytes that count, and what the printer never emits -----

  /** White space between printed tokens is any of eight bytes. */
  lemma EightBytesSeparate(nodes: seq<Node>, pad: Bytes)
    requires Normal(nodes) && forall i :: 0 <= i < |pad| ==> pad[i] in {9, 10, 11, 12, 13, 32, 0x85, 0xA0}
    ensures Parse(Print(nodes, pad)) == Ok(Node([114, 111, 111, 116], [], nodes))
  {
    assert AllSpace(pad);
    ParseInvertsPrint(nodes, pad);
  }

  lemma UnquotedWord(w: Bytes, rest: Bytes)
    requires w != [] && w[0] != 34 && forall b :: b in w ==> b !in {9, 10, 11, 12, 13, 32, 0x85, 0xA0, 123, 125}
    requires rest == [] || rest[0] in {9, 10, 11, 12, 13, 32, 0x85, 0xA0, 123, 125}
    ensures SkipSpace(w + rest) == w + rest && Token(w + rest) == Ok((w, rest))
  {
    var s := w + rest;
    assert forall i :: 0 <= i < |w| ==> s[i] == w[i] && w[i] in w;
    UnquotedLengthIs(s, |w|);
  }

  /** A word without quotes ends exactly at a space byte, a brace, or the end. */
  lemma UnquotedPair(k: Bytes, v: Bytes, sep: byte, rest: Bytes)
    requires k != [] && v != [] && k[0] != 34 && v[0] != 34
    requires forall b :: b in k || b in v ==> b !in {9, 10, 11, 12, 13, 32, 0x85, 0xA0, 123, 125}
    requires sep in {9, 10, 11, 12, 13, 32, 0x85, 0xA0}
    requires rest == [] || rest[0] in {9, 10, 11, 12, 13, 32, 0x85, 0xA0, 123, 125}
    ensures Siblings(k + ([sep] + (v + rest))) == After([Node(k, v, [])], Siblings(rest))
  {
    UnquotedWord(k, [sep] + (v + rest));
    UnquotedWord(v, rest);
    SkipsPad([sep], v + rest);
  }

  /** Words with braces around a pair; the closing brace may be missing. */
  lemma UnquotedBlock(name: Bytes, k: Bytes, v: Bytes, sep: byte, end: Bytes)
    requires name != [] && k != [] && v != [] && name[0] != 34 && k[0] != 34 && v[0] != 34
    requires forall b :: b in name || b in k || b in v ==> b !in {9, 10, 11, 12, 13, 32, 0x85, 0xA0, 123, 125}
    requires sep in {9, 10, 11, 12, 13, 32, 0x85, 0xA0} && (end == [] || end == [125])
    ensures Parse(name + ([123] + (k + ([sep] + (v + end))))) ==
            Ok(Node([114, 111, 111, 116], [], [Node(name, [], [Node(k, v, [])])]))
  {
    var inside := k + ([sep] + (v + end));
    UnquotedWord(name, [123] + inside);
    UnquotedPair(k, v, sep, end);
    AfterAtEnd([Node(k, v, [])], end);
    var s := name + ([OPEN] + inside);
    BranchStep(s, s, name, [OPEN] + inside, inside, [Node(k, v, [])], end);
    AfterAtEnd([Node(name, [], [Node(k, v, [])])], []);
  }

  /** A key alone, or a string that is not closed, is rejected. */
  lemma UnfinishedIsRejected(k: Bytes, s: Bytes)
    requires k != [] && k[0] != 34 && forall b :: b in k ==> b !in {9, 10, 11, 12, 13, 32, 0x85, 0xA0, 123, 125}
    requires 34 !in s && 92 !in s
    ensures Parse(k).Err? && Parse([34] + s).Err?
  {
    UnquotedWord(k, []);
    assert k + [] == k;
    PlainFront(s, []);
    assert ([34] + s)[1..] == s + [];
  }

  lemma {:induction false} PlainFront(s: Bytes, rest: Bytes)
    requires 34 !in s && 92 !in s
    ensures Quoted(s + rest) == Fronted(s, Quoted(rest))
  {
    if s == [] {
      assert s + rest == rest;
      FrontedEmpty(s, Quoted(rest));
    } else {
      PlainFront(s[1..], rest);
      assert (s + rest)[1..] == s[1..] + rest;
      assert Quoted(rest).Ok? ==> [s[0]] + (s[1..] + Quoted(rest).value.0) == s + Quoted(rest).value.0;
    }
  }

  /**
   What a backslash does to the byte after it: a quote, a backslash, `n` and `t` stand for a quote,
   a backslash, a newline and a tab; before any other byte the backslash stays.
   */
  lemma BackslashEscapesFour(x: Bytes, e: byte, y: Bytes)
    requires 34 !in x && 92 !in x && 34 !in y && 92 !in y
    ensures Parse([34] + (x + ([92, e] + (y + [34, 34, 118, 34])))) ==
            Ok(Node([114, 111, 111, 116], [],
                    [Node(x + (if e == 110 then [10] else if e == 116 then [9] else
                               if e == 34 || e == 92 then [e] else [92, e]) + y, [118], [])]))
  {
    var end := [34, 34, 118, 34];
    var s := [92, e] + (y + end);
    var u: Bytes := if e == 110 then [10] else if e == 116 then [9] else if e == 34 || e == 92 then [e] else [92, e];
    PlainFront(x, s);
    PlainFront(y, end);
    assert end[1..] == [34, 118, 34] && y + [] == y;
    assert s[2..] == y + end && s[1..] == [e] + (y + end);
    assert Quoted(s) == Ok((u + y, [34, 118, 34])) by {
      if u == [92, e] {
        assert s[1..][1..] == y + end;
        assert [92] + ([e] + y) == u + y;
      }
    }
    assert x + (u + y) == x + u + y;
    var t := [34] + (x + s);
    assert t[1..] == x + s;
    ShortValue(t, x + u + y);
  }

  lemma ShortValue(t: Bytes, key: Bytes)
    requires t != [] && t[0] == QUOTE && Token(t) == Ok((key, [34, 118, 34]))
    ensures Siblings(t) == Ok(([Node(key, [118], [])], []))
  {
    assert Escaped([118]) == [118] + Escaped([]) && InQuotes([118]) + [] == [34, 118, 34];
    TokenReadsQuoted([118], []);
    AfterAtEnd([Node(key, [118], [])], []);
  }

  // ----- the parser with its cursor -----

  class VdfParser {
    const input: Bytes
    var pos: nat

    constructor (input: Bytes)
      ensures this.input == input && pos == 0
    {
      this.input := input;
      pos := 0;
    }

    ghost predicate Valid()
      reads this
    {
      pos <= |input|
    }

    /** The part of the input the cursor has not passed. */
    ghost function Rest(): Bytes
      reads this
      requires Valid()
    {
      input[pos..]
    }

    method SkipWhitespace()
      requires Valid()
      modifies this
      ensures Valid() && old(pos) <= pos && Rest() == SkipSpace(old(Rest()))
      ensures forall i :: old(pos) <= i < pos ==> input[i] in {9, 10, 11, 12, 13, 32, 0x85, 0xA0}
      ensures pos == |input| || input[pos] !in {9, 10, 11, 12, 13, 32, 0x85, 0xA0}
    {
      while pos < |input| && IsSpace(input[pos])
        invariant Valid() && old(pos) <= pos && SkipSpace(Rest()) == SkipSpace(old(Rest()))
        invariant forall i :: old(pos) <= i < pos ==> input[i] in {9, 10, 11, 12, 13, 32, 0x85, 0xA0}
      {
        assert Rest()[1..] == input[pos + 1..];
        pos := pos + 1;
      }
    }

    /** With the cursor on the opening quote. */
    method ReadQuotedString() returns (r: Result<Bytes>)
      requires Valid() && pos < |input| && input[pos] == QUOTE
      modifies this
      ensures Valid() && old(pos) < pos
      ensures match Quoted(old(Rest())[1..])
              case Err => r.Err?
              case Ok((s, rest)) => r == Ok(s) && Rest() == rest
    {
      pos := pos + 1;
      assert Rest() == old(Rest())[1..];
      var b: Bytes := [];
      FrontedEmpty(b, Quoted(Rest()));
      while pos < |input|
        invariant Valid() && old(pos) < pos
        invariant Quoted(old(Rest())[1..]) == Fronted(b, Quoted(Rest()))
        decreases |input| - pos
      {
        var ch := input[pos];
        assert Rest()[1..] == input[pos + 1..];
        if ch == BACKSLASH && pos + 1 < |input| {
          var next := input[pos + 1];
          assert Rest()[2..] == input[pos + 2..];
          if next == QUOTE || next == BACKSLASH {
            FrontedPrefixed(b, next, Quoted(input[pos + 2..]));
            b := b + [next];
            pos := pos + 2;
          } else if next == LETTER_N {
            FrontedPrefixed(b, NEWLINE, Quoted(input[pos + 2..]));
            b := b + [NEWLINE];
            pos := pos + 2;
          } else if next == LETTER_T {
            FrontedPrefixed(b, TAB, Quoted(input[pos + 2..]));
            b := b + [TAB];
            pos := pos + 2;
          } else {
            FrontedPrefixed(b, ch, Quoted(input[pos + 1..]));
            b := b + [ch];
            pos := pos + 1;
          }
        } else if ch == QUOTE {
          pos := pos + 1;
          assert b + [] == b;
          return Ok(b);
        } else {
          FrontedPrefixed(b, ch, Quoted(input[pos + 1..]));
          b := b + [ch];
          pos := pos + 1;
        }
      }
      return Err;
    }

    method ReadUnquotedString() returns (s: Bytes)
      requires Valid()
      modifies this
      ensures Valid() && old(pos) <= pos && (s, Rest()) == Unquoted(old(Rest()))
      ensures forall i :: old(pos) <= i < pos ==> input[i] !in {9, 10, 11, 12, 13, 32, 0x85, 0xA0, 123, 125}
      ensures pos == |input| || input[pos] in {9, 10, 11, 12, 13, 32, 0x85, 0xA0, 123, 125}
    {
      var start := pos;
      while pos < |input| && !EndsUnquoted(input[pos])
        invariant Valid() && start <= pos
        invariant forall i :: start <= i < pos ==> !EndsUnquoted(input[i])
      {
        pos := pos + 1;
      }
      s := input[start..pos];
      ghost var n := pos - start;
      UnquotedLengthIs(old(Rest()), n);
      assert old(Rest())[..n] == s && old(Rest())[n..] == Rest();
    }

    method ReadString() returns (r: Result<Bytes>)
      requires Valid()
      modifies this
      ensures Valid() && old(pos) <= pos
      ensures match Token(old(Rest()))
              case Err => r.Err?
              case Ok((s, rest)) => r == Ok(s) && Rest() == rest
    {
      SkipWhitespace();
      if pos >= |input| {
        return Err;
      }
      if input[pos] == QUOTE {
        r := ReadQuotedString();
      } else {
        var s := ReadUnquotedString();
        r := Ok(s);
      }
    }

    /** Reads siblings until a closing brace or the end; every round consumes a byte. */
    method ParseChildren() returns (r: Result<seq<Node>>)
      requires Valid()
      modifies this
      ensures Valid() && old(pos) <= pos
      ensures match Siblings(old(Rest()))
              case Err => r.Err?
              case Ok((nodes, rest)) => r == Ok(nodes) && Rest() == rest
      decreases |input| - pos, 2
    {
      var children: seq<Node> := [];
      AfterEmpty(children, Siblings(Rest()));
      while true
        invariant Valid() && old(pos) <= pos
        invariant Siblings(old(Rest())) == After(children, Siblings(Rest()))
        decreases |input| - pos
      {
        ghost var s := Rest();
        SkipWhitespace();
        if pos >= |input| || input[pos] == CLOSE {
          AfterAtEnd(children, SkipSpace(s));
          return Ok(children);
        }
        var node := ReadNode();
        if node.Err? {
          return Err;
        }
        AfterAfter(children, node.value, Siblings(Rest()));
        children := children + [node.value];
      }
    }

    /** One round of `ParseChildren`: a key with its value or its braces. */
    method ReadNode() returns (r: Result<Node>)
      requires Valid() && pos < |input| && input[pos] != CLOSE && !IsSpace(input[pos])
      modifies this
      ensures Valid() && old(pos) <= pos && (r.Ok? ==> old(pos) < pos)
      ensures if r.Err? then Siblings(old(Rest())).Err?
              else Siblings(old(Rest())) == After([r.value], Siblings(Rest()))
      decreases |input| - pos, 1
    {
      var key := ReadString();
      if key.Err? {
        return Err;
      }
      SkipWhitespace();
      if pos >= |input| {
        return Err;
      }
      if input[pos] == OPEN {
        var kids := ReadBraces();
        if kids.Err? {
          return Err;
        }
        r := Ok(Node(key.value, [], kids.value));
      } else {
        var value := ReadString();
        if value.Err? {
          return Err;
        }
        r := Ok(Node(key.value, value.value, []));
      }
    }

    /** From an opening brace past its closing one, which may be missing at the end of the input. */
    method ReadBraces() returns (r: Result<seq<Node>>)
      requires Valid() && pos < |input| && input[pos] == OPEN
      modifies this
      ensures Valid() && old(pos) < pos
      ensures match Siblings(old(Rest())[1..])
              case Err => r.Err?
              case Ok((kids, rest)) => r == Ok(kids) && Rest() == AfterClose(rest)
      decreases |input| - pos, 0
    {
      assert Rest()[1..] == input[pos + 1..];
      pos := pos + 1;
      r := ParseChildren();
      if r.Err? {
        return;
      }
      SkipWhitespace();
      if pos < |input| && input[pos] == CLOSE {
        assert Rest()[1..] == input[pos + 1..];
        pos := pos + 1;
      }
    }
  }

  function Fronted(b: Bytes, r: Result<(Bytes, Bytes)>): Result<(Bytes, Bytes)> {
    if r.Ok? then Ok((b + r.value.0, r.value.1)) else Err
  }

  lemma AfterAtEnd(front: seq<Node>, rest: Bytes)
    ensures After(front, Ok(([], rest))) == Ok((front, rest))
  {
    assert front + [] == front;
  }

  lemma FrontedEmpty(b: Bytes, r: Result<(Bytes, Bytes)>)
    requires b == []
    ensures Fronted(b, r) == r
  {
    if r.Ok? {
      assert b + r.value.0 == r.value.0;
    }
  }

  lemma AfterEmpty(front: seq<Node>, r: Result<(seq<Node>, Bytes)>)
    requires front == []
    ensures After(front, r) == r
  {
    if r.Ok? {
      assert front + r.value.0 == r.value.0;
    }
  }

  lemma FrontedPrefixed(b: Bytes, c: byte, r: Result<(Bytes, Bytes)>)
    ensures Fronted(b, Prefixed(c, r)) == Fronted(b + [c], r)
  {
    if r.Ok? {
      assert b + ([c] + r.value.0) == b + [c] + r.value.0;
    }
  }

  lemma AfterAfter(front: seq<Node>, n: Node, r: Result<(seq<Node>, Bytes)>)
    ensures After(front, After([n], r)) == After(front + [n], r)
  {
    if r.Ok? {
      assert front + ([n] + r.value.0) == front + [n] + r.value.0;
    }
  }

  method ParseVdf(input: Bytes) returns (r: Result<Node>)
    ensures r == Parse(input)
  {
    var p := new VdfParser(input);
    assert p.Rest() == input;
    var children := p.ParseChildren();
    r := if children.Ok? then Ok(Node(ROOT_KEY, [], children.value)) else Err;
  }
}
