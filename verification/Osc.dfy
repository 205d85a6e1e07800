/** OSC 1.0 messages: the encoder, the parser, and what they make of each other. */
module Osc {
  import opened Words

  type int32 = x: int | -0x8000_0000 <= x < 0x8000_0000
  type word32 = x: int | 0 <= x < 0x1_0000_0000

  /** An argument. Floats are carried as their bits; every tag but i, f, s and b carries no data. */
  datatype Arg =
    | Int(i: int32)
    | Float(bits: word32)
    | Str(s: seq<byte>)
    | Blob(b: seq<byte>)
    | Plain(tag: PlainTag)

  const TAG_I: byte := 0x69
  const TAG_F: byte := 0x66
  const TAG_S: byte := 0x73
  const TAG_B: byte := 0x62
  const COMMA: byte := 0x2C

  type PlainTag = t: byte | t != TAG_I && t != TAG_F && t != TAG_S && t != TAG_B witness 0x54

  function TagOf(a: Arg): byte {
    match a
    case Int(_) => TAG_I
    case Float(_) => TAG_F
    case Str(_) => TAG_S
    case Blob(_) => TAG_B
    case Plain(tag) => tag
  }

  const BUNDLE: seq<byte> := [0x23, 0x62, 0x75, 0x6E, 0x64, 0x6C, 0x65]  // #bundle

  const MAX_INT: int := 0x7FFF_FFFF

  // ---- 32-bit words ----

  function Unsigned(i: int32): word32 {
    if i < 0 then i + 0x1_0000_0000 else i
  }

  function Signed(u: word32): int32 {
    if u < 0x8000_0000 then u else u - 0x1_0000_0000
  }

  /** The big-endian word at place `p`. */
  function WordAt(d: seq<byte>, p: nat): word32
    requires p + 4 <= |d|
  {
    var b0: int, b1: int, b2: int, b3: int := d[p], d[p + 1], d[p + 2], d[p + 3];
    b0 * 0x100_0000 + b1 * 0x1_0000 + b2 * 0x100 + b3
  }

  function WordBytes(u: word32): (r: seq<byte>)
    ensures |r| == 4
  {
    var a := u / 0x100;
    var b := a / 0x100;
    [b / 0x100, b % 0x100, a % 0x100, u % 0x100]
  }

  lemma WordRoundTrip(u: word32)
    ensures WordAt(WordBytes(u), 0) == u
  {
    var a := u / 0x100;
    var b := a / 0x100;
    assert u == 0x100 * a + u % 0x100 && a == 0x100 * b + a % 0x100 && b == 0x100 * (b / 0x100) + b % 0x100;
  }

  // ---- encoding ----

  function Align4(n: nat): (r: nat)
    ensures n <= r < n + 4 && r % 4 == 0
  {
    (n + 3) / 4 * 4
  }

  /** Filled up with zero bytes to a multiple of four. */
  function Padded(s: seq<byte>): (r: seq<byte>)
    ensures |r| == Align4(|s|) && s <= r && forall i :: |s| <= i < |r| ==> r[i] == 0
  {
    s + seq(Align4(|s|) - |s|, _ => 0)
  }

  function TagsOf(args: seq<Arg>): (r: seq<byte>)
    ensures |r| == |args| && forall i :: 0 <= i < |args| ==> r[i] == TagOf(args[i])
  {
    seq(|args|, i requires 0 <= i < |args| => TagOf(args[i]))
  }

  function ArgBytes(a: Arg): seq<byte> {
    match a
    case Int(i) => WordBytes(Unsigned(i))
    case Float(bits) => WordBytes(bits)
    case Str(s) => Padded(s + [0])
    case Blob(b) => WordBytes(|b| % 0x1_0000_0000) + Padded(b)
    case Plain(_) => []
  }

  function Payload(args: seq<Arg>): seq<byte> {
    if args == [] then [] else ArgBytes(args[0]) + Payload(args[1..])
  }

  /** The packet of a message: address, tags and data, each filled up to a multiple of four. */
  function Encoded(address: seq<byte>, args: seq<Arg>): seq<byte> {
    Padded(address + [0]) + Padded([COMMA] + TagsOf(args) + [0]) + Payload(args)
  }

  lemma SumAligned(a: seq<byte>, b: seq<byte>)
    requires |a| % 4 == 0 && |b| % 4 == 0
    ensures |a + b| % 4 == 0
  {
  }

  lemma ArgBytesAligned(a: Arg)
    ensures |ArgBytes(a)| % 4 == 0
  {
    hide WordBytes, Padded, Align4;
    if a.Blob? {
      SumAligned(WordBytes(|a.b| % 0x1_0000_0000), Padded(a.b));
    }
  }

  lemma {:induction false} PayloadAligned(args: seq<Arg>)
    ensures |Payload(args)| % 4 == 0
  {
    hide ArgBytes;
    if args != [] {
      ArgBytesAligned(args[0]);
      PayloadAligned(args[1..]);
      SumAligned(ArgBytes(args[0]), Payload(args[1..]));
    }
  }

  /** Packets fill whole words. */
  lemma EncodedAligned(address: seq<byte>, args: seq<Arg>)
    ensures |Encoded(address, args)| % 4 == 0
  {
    hide Padded, Align4, TagsOf, Payload;
    var head, middle := Padded(address + [0]), Padded([COMMA] + TagsOf(args) + [0]);
    PayloadAligned(args);
    SumAligned(head, middle);
    SumAligned(head + middle, Payload(args));
  }

  // ---- parsing ----

  /** What parsing a packet comes to. Undefined stands for a length that overflows the integers it is computed in. */
  datatype Outcome = Rejected | Undefined | Message(address: seq<byte>, args: seq<Arg>)

  /** The first zero byte from `p` on, or where the packet ends. */
  function NulAt(d: seq<byte>, p: nat): (q: nat)
    ensures p <= q && (p <= |d| ==> q <= |d|) && (|d| < p ==> q == p)
    ensures forall i :: p <= i < q ==> i < |d| && d[i] != 0
    ensures q < |d| ==> d[q] == 0
    decreases |d| - p
  {
    if |d| <= p || d[p] == 0 then p else NulAt(d, p + 1)
  }

  /** The string at `p`. */
  function StringAt(d: seq<byte>, p: nat): seq<byte> {
    if |d| <= p then [] else d[p..NulAt(d, p)]
  }

  datatype Step = Reject | Overflow | Read(arg: Arg, next: nat)

  /** One argument at `p`. */
  function ReadArg(d: seq<byte>, tag: byte, p: nat): Step {
    if tag == TAG_I then
      if |d| < p + 4 then Reject else Read(Int(Signed(WordAt(d, p))), p + 4)
    else if tag == TAG_F then
      if |d| < p + 4 then Reject else Read(Float(WordAt(d, p)), p + 4)
    else if tag == TAG_S then
      Read(Str(StringAt(d, p)), Align4(NulAt(d, p) + 1))
    else if tag == TAG_B then
      if |d| < p + 4 then Reject
      else
        var size := WordAt(d, p);
        if MAX_INT < size || MAX_INT < p + 4 + size then Overflow
        else if |d| < p + 4 + size then Reject
        else Read(Blob(d[p + 4..p + 4 + size]), Align4(p + 4 + size))
    else Read(Plain(tag), p)
  }

  /** The arguments for these tags from `p` on, behind those already read. */
  function ReadArgs(d: seq<byte>, tags: seq<byte>, p: nat, address: seq<byte>, args: seq<Arg>): Outcome
    decreases |tags|
  {
    if tags == [] then Message(address, args)
    else
      match ReadArg(d, tags[0], p)
      case Reject => Rejected
      case Overflow => Undefined
      case Read(arg, next) => ReadArgs(d, tags[1..], next, address, args + [arg])
  }

  predicate IsBundle(d: seq<byte>) {
    8 <= |d| && d[..8] == BUNDLE + [0]
  }

  function ParseMessage(d: seq<byte>): Outcome {
    var addressEnd := NulAt(d, 0);
    if |d| <= addressEnd then Rejected
    else
      var p := Align4(addressEnd + 1);
      if |d| <= p then Message(d[..addressEnd], [])
      else if d[p] != COMMA then Rejected
      else
        var tagsEnd := NulAt(d, p + 1);
        if |d| <= tagsEnd then Rejected
        else ReadArgs(d, d[p + 1..tagsEnd], Align4(tagsEnd + 1), d[..addressEnd], [])
  }

  /** A packet: a message, or a bundle, of which the first element is taken. */
  function Parse(d: seq<byte>): Outcome
    decreases |d|
  {
    if |d| < 4 then Rejected
    else if IsBundle(d) then
      if |d| < 20 then Rejected
      else
        var size := Signed(WordAt(d, 16));
        if MAX_INT < 20 + size then Undefined
        else if |d| < 20 + size || size < 0 then Rejected
        else Parse(d[20..20 + size])
    else ParseMessage(d)
  }

  // ---- round trip ----

  predicate NulFree(s: seq<byte>) {
    forall i :: 0 <= i < |s| ==> s[i] != 0
  }

  /** What a packet can say of an argument. */
  predicate Plainly(a: Arg) {
    TagOf(a) != 0 && (a.Str? ==> NulFree(a.s))
  }

  /** Messages that packets can carry: no zero bytes where strings end, and not under the bundle's name. */
  predicate Carried(address: seq<byte>, args: seq<Arg>) {
    NulFree(address) && address != BUNDLE && forall i :: 0 <= i < |args| ==> Plainly(args[i])
  }

  lemma {:induction false} NulAtIs(d: seq<byte>, p: nat, q: nat)
    requires p <= q < |d| && d[q] == 0 && forall i :: p <= i < q ==> d[i] != 0
    ensures NulAt(d, p) == q
    decreases q - p
  {
    if p < q {
      NulAtIs(d, p + 1, q);
    }
  }

  lemma ReadsWord(pre: seq<byte>, u: word32, rest: seq<byte>)
    ensures WordAt(pre + WordBytes(u) + rest, |pre|) == u
  {
    var d := pre + WordBytes(u) + rest;
    WordRoundTrip(u);
    assert forall i :: 0 <= i < 4 ==> d[|pre| + i] == WordBytes(u)[i];
  }

  lemma SignRoundTrip(i: int32)
    ensures Signed(Unsigned(i)) == i
  {
  }

  lemma AlignAfter(n: nat, m: nat)
    requires n % 4 == 0
    ensures Align4(n + m) == n + Align4(m)
  {
  }

  lemma FieldLength(n: nat, s: seq<byte>)
    requires n % 4 == 0
    ensures Align4(n + |s| + 1) == n + |Padded(s + [0])|
  {
    hide Padded;
    assert n + |s| + 1 == n + |s + [0]|;
    AlignAfter(n, |s + [0]|);
  }

  lemma ReadsString(pre: seq<byte>, s: seq<byte>, rest: seq<byte>)
    requires NulFree(s)
    ensures var d := pre + Padded(s + [0]) + rest;
      NulAt(d, |pre|) == |pre| + |s| && StringAt(d, |pre|) == s
  {
    hide Padded, Align4, NulAt, StringAt, NulFree;
    ReadsField(pre, s, Padded(s + [0]), rest);
  }

  lemma ReadsField(pre: seq<byte>, s: seq<byte>, field: seq<byte>, rest: seq<byte>)
    requires s + [0] <= field && NulFree(s)
    ensures NulAt(pre + field + rest, |pre|) == |pre| + |s| && StringAt(pre + field + rest, |pre|) == s
  {
    hide NulAt, StringAt, NulFree;
    FieldAt(pre, s, field, rest);
    StringIs(pre + field + rest, |pre|, s);
  }

  lemma FieldAt(pre: seq<byte>, s: seq<byte>, field: seq<byte>, rest: seq<byte>)
    requires s + [0] <= field
    ensures var d := pre + field + rest;
      && |pre| + |s| < |d| && d[|pre| + |s|] == 0 && forall i :: 0 <= i < |s| ==> d[|pre| + i] == s[i]
  {
    var d := pre + field + rest;
    forall i | 0 <= i < |s| + 1
      ensures d[|pre| + i] == (s + [0])[i]
    {
      assert d[|pre| + i] == field[i];
    }
    assert (s + [0])[|s|] == 0;
  }

  lemma StringIs(d: seq<byte>, p: nat, s: seq<byte>)
    requires p + |s| < |d| && d[p + |s|] == 0 && NulFree(s) && forall i :: 0 <= i < |s| ==> d[p + i] == s[i]
    ensures NulAt(d, p) == p + |s| && StringAt(d, p) == s
  {
    hide NulAt;
    forall i | p <= i < p + |s|
      ensures d[i] != 0
    {
      assert d[p + (i - p)] == s[i - p];
    }
    NulAtIs(d, p, p + |s|);
    assert d[p..p + |s|] == s;
  }

  lemma ReadsBlob(pre: seq<byte>, b: seq<byte>, rest: seq<byte>)
    requires |pre| % 4 == 0 && |b| < 0x1_0000_0000 && |pre + (WordBytes(|b|) + Padded(b)) + rest| <= MAX_INT
    ensures var d := pre + (WordBytes(|b|) + Padded(b)) + rest;
      ReadArg(d, TAG_B, |pre|) == Read(Blob(b), |pre| + |WordBytes(|b|) + Padded(b)|)
  {
    hide WordBytes, WordAt;
    var d := pre + (WordBytes(|b|) + Padded(b)) + rest;
    assert d == pre + WordBytes(|b|) + (Padded(b) + rest);
    ReadsWord(pre, |b|, Padded(b) + rest);
    assert d[|pre| + 4..|pre| + 4 + |b|] == b;
  }

  lemma BlobFits(pre: seq<byte>, b: seq<byte>, rest: seq<byte>)
    requires |pre + ArgBytes(Blob(b)) + rest| <= MAX_INT
    ensures |b| < 0x1_0000_0000 && ArgBytes(Blob(b)) == WordBytes(|b|) + Padded(b)
  {
    hide WordBytes, Padded, Align4;
  }

  /** The parser reads back what the encoder wrote of an argument. */
  lemma ReadsArg(pre: seq<byte>, a: Arg, rest: seq<byte>)
    requires |pre| % 4 == 0 && Plainly(a)
    requires |pre + ArgBytes(a) + rest| <= MAX_INT
    ensures ReadArg(pre + ArgBytes(a) + rest, TagOf(a), |pre|) == Read(a, |pre| + |ArgBytes(a)|)
  {
    hide WordBytes, WordAt, Padded, Signed, Unsigned, Align4, NulAt, NulFree;
    match a
    case Int(i) =>
      ReadsWord(pre, Unsigned(i), rest);
      SignRoundTrip(i);
    case Float(bits) =>
      ReadsWord(pre, bits, rest);
    case Str(s) =>
      ReadsString(pre, s, rest);
      FieldLength(|pre|, s);
    case Blob(b) =>
      BlobFits(pre, b, rest);
      ReadsBlob(pre, b, rest);
    case Plain(tag) =>
      assert pre + [] + rest == pre + rest;
  }

  lemma {:induction false} ReadsArgs(pre: seq<byte>, args: seq<Arg>, address: seq<byte>, done: seq<Arg>)
    requires |pre| % 4 == 0 && forall i :: 0 <= i < |args| ==> Plainly(args[i])
    requires |pre + Payload(args)| <= MAX_INT
    ensures ReadArgs(pre + Payload(args), TagsOf(args), |pre|, address, done) == Message(address, done + args)
    decreases |args|
  {
    hide ReadArg, ArgBytes, Plainly;
    var d := pre + Payload(args);
    if args == [] {
      assert done + args == done;
    } else {
      var a, more := args[0], args[1..];
      assert d == pre + ArgBytes(a) + Payload(more);
      ReadsArg(pre, a, Payload(more));
      ArgBytesAligned(a);
      SumAligned(pre, ArgBytes(a));
      assert TagsOf(args)[1..] == TagsOf(more);
      ReadsArgs(pre + ArgBytes(a), more, address, done + [a]);
      assert done + [a] + more == done + args;
    }
  }

  /** The address field of a packet. */
  lemma ReadsAddress(address: seq<byte>, rest: seq<byte>)
    requires NulFree(address)
    ensures var d := Padded(address + [0]) + rest;
      && NulAt(d, 0) == |address| < |d| && d[..|address|] == address
      && Align4(|address| + 1) == |Padded(address + [0])|
  {
    hide Padded, Align4, NulAt, NulFree;
    var head := Padded(address + [0]);
    assert [] + head + rest == head + rest;
    ReadsString([], address, rest);
    FieldLength(0, address);
    assert (head + rest)[0..|address|] == (head + rest)[..|address|];
  }

  /** The field of type tags, behind the address. */
  lemma ReadsTags(head: seq<byte>, tags: seq<byte>, rest: seq<byte>)
    requires |head| % 4 == 0 && NulFree([COMMA] + tags)
    ensures var middle := Padded([COMMA] + tags + [0]);
      var d, p := head + middle + rest, |head|;
      && p + 1 + |tags| < |d| && d[p] == COMMA && NulAt(d, p + 1) == p + 1 + |tags|
      && d[p + 1..p + 1 + |tags|] == tags && Align4(p + 1 + |tags| + 1) == |head + middle|
  {
    hide Padded, Align4, NulAt, NulFree;
    var middle := Padded([COMMA] + tags + [0]);
    var d, p := head + middle + rest, |head|;
    ReadsString(head, [COMMA] + tags, rest);
    assert d[p..p + 1 + |tags|] == [COMMA] + tags;
    assert d[p] == d[p..p + 1 + |tags|][0];
    assert d[p + 1..p + 1 + |tags|] == d[p..p + 1 + |tags|][1..];
    NulStays(d, p);
    FieldLength(|head|, [COMMA] + tags);
  }

  lemma NulStays(d: seq<byte>, p: nat)
    requires p < |d| && d[p] != 0
    ensures NulAt(d, p) == NulAt(d, p + 1)
  {
  }

  lemma ParsesMessage(address: seq<byte>, args: seq<Arg>)
    requires Carried(address, args) && |Encoded(address, args)| <= MAX_INT
    ensures ParseMessage(Encoded(address, args)) == Message(address, args)
  {
    hide Payload, ReadArgs, ArgBytes, Padded, Align4, Plainly, TagsOf, NulAt, NulFree;
    var head := Padded(address + [0]);
    var tags := TagsOf(args);
    var middle := Padded([COMMA] + tags + [0]);
    var d := Encoded(address, args);
    ConcatAssoc(head, middle, Payload(args));
    ReadsAddress(address, middle + Payload(args));
    TagsNulFree(args);
    ReadsTags(head, tags, Payload(args));
    SumAligned(head, middle);
    ReadsArgs(head + middle, args, address, []);
    assert [] + args == args;
  }

  lemma TagsNulFree(args: seq<Arg>)
    requires forall i :: 0 <= i < |args| ==> Plainly(args[i])
    ensures NulFree([COMMA] + TagsOf(args))
  {
  }

  /** A bundle is what would parse as the address #bundle. */
  lemma BundleHead(d: seq<byte>)
    requires IsBundle(d)
    ensures NulAt(d, 0) == 7 && d[..7] == BUNDLE
  {
    assert d[..8][7] == 0 && forall i :: 0 <= i < 7 ==> d[..8][i] != 0;
    NulAtIs(d, 0, 7);
    assert d[..7] == d[..8][..7];
  }

  lemma HeadIsBundle(d: seq<byte>)
    requires 8 <= |d| && d[7] == 0 && d[..7] == BUNDLE
    ensures IsBundle(d)
  {
    assert d[..8] == d[..7] + [d[7]];
  }

  lemma NotABundle(address: seq<byte>, args: seq<Arg>)
    requires Carried(address, args)
    ensures 4 <= |Encoded(address, args)| && !IsBundle(Encoded(address, args))
  {
    hide Payload, Padded, Align4, Plainly, TagsOf;
    var d := Encoded(address, args);
    var rest := Padded([COMMA] + TagsOf(args) + [0]) + Payload(args);
    assert d == [] + Padded(address + [0]) + rest;
    ReadsString([], address, rest);
    assert NulAt(d, 0) == |address| && d[..|address|] == address;
    if IsBundle(d) {
      BundleHead(d);
    }
  }

  // ---- what parsing can come to ----

  lemma {:induction false} ReadArgsPlainly(d: seq<byte>, tags: seq<byte>, p: nat, address: seq<byte>, args: seq<Arg>)
    requires NulFree(tags) && forall i :: 0 <= i < |args| ==> Plainly(args[i])
    ensures var r := ReadArgs(d, tags, p, address, args);
      r.Message? ==> r.address == address && forall i :: 0 <= i < |r.args| ==> Plainly(r.args[i])
    decreases |tags|
  {
    hide ReadArg, Plainly;
    if tags != [] {
      var step := ReadArg(d, tags[0], p);
      ReadArgPlainly(d, tags[0], p);
      if step.Read? {
        ReadArgsPlainly(d, tags[1..], step.next, address, args + [step.arg]);
      }
    }
  }

  lemma ReadArgPlainly(d: seq<byte>, tag: byte, p: nat)
    requires tag != 0
    ensures var r := ReadArg(d, tag, p); r.Read? ==> Plainly(r.arg) && TagOf(r.arg) == tag
  {
  }

  /** Whatever a packet parses to is a message that packets can carry. */
  lemma {:induction false} ParsedIsCarried(d: seq<byte>)
    ensures Parse(d).Message? ==> Carried(Parse(d).address, Parse(d).args)
    decreases |d|
  {
    hide ReadArgs, Plainly;
    if 4 <= |d| && IsBundle(d) {
      if 20 <= |d| {
        var size := Signed(WordAt(d, 16));
        if 0 <= size && 20 + size <= |d| {
          ParsedIsCarried(d[20..20 + size]);
        }
      }
    } else if 4 <= |d| {
      MessageIsCarried(d);
    }
  }

  lemma MessageIsCarried(d: seq<byte>)
    requires !IsBundle(d)
    ensures var r := ParseMessage(d); r.Message? ==> Carried(r.address, r.args)
  {
    hide ReadArgs, Plainly, Align4;
    var end := NulAt(d, 0);
    if end < |d| {
      if end == 7 && d[..7] == BUNDLE {
        HeadIsBundle(d);
      }
      var p := Align4(end + 1);
      if p < |d| && d[p] == COMMA && NulAt(d, p + 1) < |d| {
        ReadArgsPlainly(d, d[p + 1..NulAt(d, p + 1)], Align4(NulAt(d, p + 1) + 1), d[..end], []);
      }
    }
  }

  /** Parsing gives back exactly what was encoded, precisely when the message is one that packets can carry. */
  lemma RoundTripIff(address: seq<byte>, args: seq<Arg>)
    requires |Encoded(address, args)| <= MAX_INT
    ensures Parse(Encoded(address, args)) == Message(address, args) <==> Carried(address, args)
  {
    hide Encoded, ParseMessage, IsBundle, Carried;
    if Carried(address, args) {
      NotABundle(address, args);
      ParsesMessage(address, args);
    } else {
      ParsedIsCarried(Encoded(address, args));
    }
  }

  // ---- bundles ----

  /** A bundle of which `element` is the first element. */
  function Bundled(element: seq<byte>, time: seq<byte>, more: seq<byte>): seq<byte>
    requires |time| == 8 && |element| < 0x1_0000_0000
  {
    BUNDLE + [0] + time + WordBytes(|element|) + element + more
  }

  /** A bundle parses as its first element. */
  lemma BundleIsFirst(element: seq<byte>, time: seq<byte>, more: seq<byte>)
    requires |time| == 8 && |element| + 20 <= MAX_INT
    ensures Parse(Bundled(element, time, more)) == Parse(element)
  {
    hide WordBytes, WordAt, ParseMessage, Bundled, IsBundle;
    BundleShape(element, time, more);
  }

  lemma BundleShape(element: seq<byte>, time: seq<byte>, more: seq<byte>)
    requires |time| == 8 && |element| < 0x1_0000_0000
    ensures var d := Bundled(element, time, more);
      && 20 + |element| <= |d| && IsBundle(d) && WordAt(d, 16) == |element| && d[20..20 + |element|] == element
  {
    hide WordBytes, WordAt;
    var head := BUNDLE + [0];
    var d := Bundled(element, time, more);
    assert d == head + (time + WordBytes(|element|) + element + more);
    assert d[..8] == head;
    assert d == (head + time) + WordBytes(|element|) + (element + more);
    ReadsWord(head + time, |element|, element + more);
    assert d == (head + time + WordBytes(|element|)) + (element + more);
    assert d[20..20 + |element|] == element;
  }

  /** Bundles in bundles, each with its time and what follows its first element. */
  function Nested(element: seq<byte>, layers: seq<(seq<byte>, seq<byte>)>): seq<byte>
    requires forall i :: 0 <= i < |layers| ==> |layers[i].0| == 8
    decreases |layers|
  {
    if layers == [] then element
    else
      var last := layers[|layers| - 1];
      var inner := Nested(element, layers[..|layers| - 1]);
      if |inner| < 0x1_0000_0000 then Bundled(inner, last.0, last.1) else inner
  }

  /** A message inside any depth of bundles parses as itself. */
  lemma {:induction false} NestedRoundTrip(address: seq<byte>, args: seq<Arg>, layers: seq<(seq<byte>, seq<byte>)>)
    requires forall i :: 0 <= i < |layers| ==> |layers[i].0| == 8
    requires Carried(address, args) && |Nested(Encoded(address, args), layers)| <= MAX_INT
    ensures Parse(Nested(Encoded(address, args), layers)) == Message(address, args)
    decreases |layers|
  {
    hide Encoded, Parse, Carried;
    if layers == [] {
      RoundTripIff(address, args);
    } else {
      var inner := Nested(Encoded(address, args), layers[..|layers| - 1]);
      NestedRoundTrip(address, args, layers[..|layers| - 1]);
      BundleIsFirst(inner, layers[|layers| - 1].0, layers[|layers| - 1].1);
    }
  }
}
