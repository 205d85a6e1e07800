/** Where the parts of an OSC message stand in its packet, byte by byte, and that the parser accepts exactly the
    packets laid out so. */
module OscLayout {
  import opened Osc
  import opened Words

  /** The value of four bytes, most significant first. */
  function Quad(d: seq<byte>, p: nat): (v: nat)
    requires p + 4 <= |d|
    ensures v < 0x1_0000_0000
  {
    ((d[p] as int * 256 + d[p + 1] as int) * 256 + d[p + 2] as int) * 256 + d[p + 3] as int
  }

  /** The first multiple of four from `n` on. */
  predicate NextWord(n: nat, q: nat) {
    n <= q < n + 4 && q % 4 == 0
  }

  lemma NextWordIs(n: nat, q: nat)
    ensures NextWord(n, q) <==> q == Align4(n)
  {
  }

  predicate Is(b: byte, c: char) {
    b as int == c as int
  }

  // ---- one argument ----

  /** A text: up to a zero byte, or up to the end of the packet; none behind the end. */
  ghost predicate TextAt(d: seq<byte>, p: nat, s: seq<byte>) {
    if |d| <= p then s == []
    else NulFree(s) && p + |s| <= |d| && d[p..p + |s|] == s && (p + |s| < |d| ==> d[p + |s|] == 0)
  }

  /** Argument `a` under type tag `tag` stands at `p`, and what follows it at `next`. */
  ghost predicate StandsAt(d: seq<byte>, tag: byte, p: nat, a: Arg, next: nat) {
    match a
    case Int(i) =>
      Is(tag, 'i') && p + 4 <= |d| && Quad(d, p) == (if i < 0 then 0x1_0000_0000 + i else i) && next == p + 4
    case Float(bits) =>
      Is(tag, 'f') && p + 4 <= |d| && Quad(d, p) == bits && next == p + 4
    case Str(s) =>
      Is(tag, 's') && TextAt(d, p, s) && NextWord((if |d| <= p then p else p + |s|) + 1, next)
    case Blob(b) =>
      && Is(tag, 'b') && p + 4 + |b| <= |d| && p + 4 + |b| <= 0x7FFF_FFFF
      && Quad(d, p) == |b| && d[p + 4..p + 4 + |b|] == b && NextWord(p + 4 + |b|, next)
    case Plain(t) =>
      !Is(tag, 'i') && !Is(tag, 'f') && !Is(tag, 's') && !Is(tag, 'b') && t == tag && next == p
  }

  lemma QuadIs(d: seq<byte>, p: nat)
    requires p + 4 <= |d|
    ensures WordAt(d, p) == Quad(d, p)
  {
  }

  lemma TextIs(d: seq<byte>, p: nat, s: seq<byte>)
    ensures TextAt(d, p, s) <==> s == StringAt(d, p)
    ensures TextAt(d, p, s) ==> NulAt(d, p) == if |d| <= p then p else p + |s|
  {
    hide NulAt;
    if p < |d| {
      if TextAt(d, p, s) {
        forall i | p <= i < p + |s|
          ensures d[i] != 0
        {
          assert d[i] == s[i - p];
        }
      }
      assert NulFree(StringAt(d, p));
    }
  }

  /** An argument is read exactly where it stands complete. */
  lemma ReadIff(d: seq<byte>, tag: byte, p: nat, a: Arg, next: nat)
    ensures ReadArg(d, tag, p) == Read(a, next) <==> StandsAt(d, tag, p, a, next)
  {
    hide WordAt, Quad, TextAt, StringAt, NulAt, Align4, NextWord;
    if p + 4 <= |d| {
      QuadIs(d, p);
    }
    match a
    case Str(s) =>
      TextIs(d, p, s);
      TextIs(d, p, StringAt(d, p));
      NextWordIs((if |d| <= p then p else p + |s|) + 1, next);
    case Blob(b) =>
      NextWordIs(p + 4 + |b|, next);
    case _ =>
  }

  /** It is refused exactly when its number, its length or its data is cut short by the end of the packet, and its
      length is undefined exactly when it leads beyond what an int holds. */
  lemma RefusedIff(d: seq<byte>, tag: byte, p: nat)
    ensures ReadArg(d, tag, p).Overflow? <==>
      Is(tag, 'b') && p + 4 <= |d| && 0x7FFF_FFFF < p + 4 + Quad(d, p)
    ensures ReadArg(d, tag, p).Reject? <==>
      || ((Is(tag, 'i') || Is(tag, 'f') || Is(tag, 'b')) && |d| < p + 4)
      || (Is(tag, 'b') && p + 4 <= |d| < p + 4 + Quad(d, p) && p + 4 + Quad(d, p) <= 0x7FFF_FFFF)
  {
    hide WordAt, Quad, StringAt, NulAt, Align4;
    if p + 4 <= |d| {
      QuadIs(d, p);
    }
  }

  // ---- all arguments ----

  /** The arguments stand one after another from `p` on, one for each tag. */
  ghost predicate AllStand(d: seq<byte>, tags: seq<byte>, p: nat, args: seq<Arg>)
    decreases |tags|
  {
    if tags == [] then args == []
    else args != [] && exists next :: StandsAt(d, tags[0], p, args[0], next) && AllStand(d, tags[1..], next, args[1..])
  }

  lemma {:induction false} ReadArgsAdds(d: seq<byte>, tags: seq<byte>, p: nat, address: seq<byte>, done: seq<Arg>)
    ensures var r := ReadArgs(d, tags, p, address, done);
      r.Message? ==> r.address == address && |done| + |tags| == |r.args| && done <= r.args
    decreases |tags|
  {
    hide ReadArg;
    if tags != [] {
      match ReadArg(d, tags[0], p)
      case Read(arg, next) =>
        ReadArgsAdds(d, tags[1..], next, address, done + [arg]);
      case _ =>
    }
  }

  lemma {:induction false} ReadArgsIff(d: seq<byte>, tags: seq<byte>, p: nat, address: seq<byte>, done: seq<Arg>,
      args: seq<Arg>)
    ensures ReadArgs(d, tags, p, address, done) == Message(address, done + args) <==> AllStand(d, tags, p, args)
    decreases |tags|
  {
    hide ReadArg, StandsAt;
    if tags == [] {
      assert done + args == done <==> args == [];
    } else {
      var step := ReadArg(d, tags[0], p);
      if args != [] {
        forall next
          ensures StandsAt(d, tags[0], p, args[0], next) <==> step == Read(args[0], next)
        {
          ReadIff(d, tags[0], p, args[0], next);
        }
        assert done + args == done + [args[0]] + args[1..];
      }
      if step.Read? {
        ReadArgsAdds(d, tags[1..], step.next, address, done + [step.arg]);
        if args != [] {
          ReadArgsIff(d, tags[1..], step.next, address, done + [step.arg], args[1..]);
          assert (done + args)[|done|] == args[0];
        }
      }
    }
  }

  // ---- messages ----

  /** A text of a packet that must end in a zero byte. */
  ghost predicate FieldAt(d: seq<byte>, p: nat, s: seq<byte>) {
    NulFree(s) && p + |s| < |d| && d[p..p + |s|] == s && d[p + |s|] == 0
  }

  /** The type tags, behind a comma and up to a zero byte, and the arguments from the next word on. */
  ghost predicate TagsStand(d: seq<byte>, p: nat, tags: seq<byte>, args: seq<Arg>) {
    FieldAt(d, p + 1, tags) && exists q :: NextWord(p + 1 + |tags| + 1, q) && AllStand(d, tags, q, args)
  }

  ghost predicate RestStands(d: seq<byte>, p: nat, args: seq<Arg>) {
    if |d| <= p then args == [] else Is(d[p], ',') && exists tags :: TagsStand(d, p, tags, args)
  }

  /** A message: its address up to a zero byte, and from the next word on a comma with the type tags; without
      arguments where the packet ends before. */
  ghost predicate Stands(d: seq<byte>, address: seq<byte>, args: seq<Arg>) {
    FieldAt(d, 0, address) && exists p: nat :: NextWord(|address| + 1, p) && RestStands(d, p, args)
  }

  lemma FieldIs(d: seq<byte>, p: nat, s: seq<byte>)
    requires p <= |d|
    ensures FieldAt(d, p, s) <==> NulAt(d, p) < |d| && s == d[p..NulAt(d, p)]
  {
    hide NulAt;
    if FieldAt(d, p, s) {
      forall i | p <= i < p + |s|
        ensures d[i] != 0
      {
        assert d[i] == s[i - p];
      }
    }
  }

  lemma TagsIff(d: seq<byte>, p: nat, address: seq<byte>, args: seq<Arg>)
    requires p < |d|
    ensures (exists tags :: TagsStand(d, p, tags, args)) <==>
      var end := NulAt(d, p + 1);
      end < |d| && ReadArgs(d, d[p + 1..end], Align4(end + 1), address, []) == Message(address, args)
  {
    hide NulAt, ReadArgs, Align4, NextWord, FieldAt, AllStand;
    var end := NulAt(d, p + 1);
    if end < |d| {
      var tags := d[p + 1..end];
      FieldIs(d, p + 1, tags);
      NextWordIs(end + 1, Align4(end + 1));
      ReadArgsIff(d, tags, Align4(end + 1), address, [], args);
      assert [] + args == args;
      if AllStand(d, tags, Align4(end + 1), args) {
        assert TagsStand(d, p, tags, args);
      }
    }
    if tags :| TagsStand(d, p, tags, args) {
      FieldIs(d, p + 1, tags);
      var q :| NextWord(p + 1 + |tags| + 1, q) && AllStand(d, tags, q, args);
      NextWordIs(p + 1 + |tags| + 1, q);
    }
  }

  /** A packet that is no bundle parses as a message exactly when it is laid out as that message. */
  lemma ParsesIff(d: seq<byte>, address: seq<byte>, args: seq<Arg>)
    requires 4 <= |d| && !(8 <= |d| && forall i :: 0 <= i < 8 ==> Is(d[i], "#bundle\0"[i]))
    ensures Parse(d) == Message(address, args) <==> Stands(d, address, args)
  {
    hide NulAt, ReadArgs, Align4, NextWord, FieldAt, RestStands;
    NoBundle(d);
    FieldIs(d, 0, address);
    assert NulAt(d, 0) < |d| ==> d[0..NulAt(d, 0)] == d[..NulAt(d, 0)];
    var p := Align4(|address| + 1);
    NextWordIs(|address| + 1, p);
    RestIff(d, p, address, args);
    ParsedAddress(d);
    if Stands(d, address, args) {
      var q: nat :| NextWord(|address| + 1, q) && RestStands(d, q, args);
      NextWordIs(|address| + 1, q);
    }
  }

  lemma ParsedAddress(d: seq<byte>)
    ensures var r := ParseMessage(d); r.Message? ==> NulAt(d, 0) < |d| && r.address == d[..NulAt(d, 0)]
  {
    hide NulAt, Align4, ReadArgs;
    var end := NulAt(d, 0);
    var p := Align4(end + 1);
    if end < |d| && p < |d| && NulAt(d, p + 1) < |d| {
      var tagsEnd := NulAt(d, p + 1);
      ReadArgsAdds(d, d[p + 1..tagsEnd], Align4(tagsEnd + 1), d[..end], []);
    }
  }

  lemma RestIff(d: seq<byte>, p: nat, address: seq<byte>, args: seq<Arg>)
    ensures RestStands(d, p, args) <==>
      if |d| <= p then args == []
      else
        d[p] == COMMA && var end := NulAt(d, p + 1);
        end < |d| && ReadArgs(d, d[p + 1..end], Align4(end + 1), address, []) == Message(address, args)
  {
    hide NulAt, ReadArgs, Align4, TagsStand;
    if p < |d| {
      TagsIff(d, p, address, args);
    }
  }

  lemma NoBundle(d: seq<byte>)
    ensures IsBundle(d) <==> 8 <= |d| && forall i :: 0 <= i < 8 ==> Is(d[i], "#bundle\0"[i])
  {
    if 8 <= |d| {
      assert forall i :: 0 <= i < 8 ==> d[..8][i] == d[i];
      assert forall i :: 0 <= i < 8 ==> Is((BUNDLE + [0])[i], "#bundle\0"[i]);
    }
  }

  // ---- what the encoder writes ----

  /** The packet of a message that packets can carry is laid out as that message. */
  lemma EncodedStands(address: seq<byte>, args: seq<Arg>)
    requires Carried(address, args) && |Encoded(address, args)| <= MAX_INT
    ensures Stands(Encoded(address, args), address, args)
  {
    hide Encoded, Parse, Stands, Carried;
    NotABundle(address, args);
    var d := Encoded(address, args);
    NoBundle(d);
    RoundTripIff(address, args);
    ParsesIff(d, address, args);
  }

  /** The bytes an argument takes. */
  function Size(a: Arg): nat {
    match a
    case Int(_) => 4
    case Float(_) => 4
    case Str(s) => |s| / 4 * 4 + 4
    case Blob(b) => 4 + (|b| + 3) / 4 * 4
    case Plain(_) => 0
  }

  function Sizes(args: seq<Arg>): nat {
    if args == [] then 0 else Size(args[0]) + Sizes(args[1..])
  }

  lemma {:induction false} PayloadLength(args: seq<Arg>)
    ensures |Payload(args)| == Sizes(args)
  {
    hide ArgBytes, Size;
    if args != [] {
      PayloadLength(args[1..]);
      ArgLength(args[0]);
    }
  }

  lemma ArgLength(a: Arg)
    ensures |ArgBytes(a)| == Size(a)
  {
  }

  lemma FieldSize(s: seq<byte>)
    ensures |Padded(s + [0])| == |s| / 4 * 4 + 4
  {
  }

  /** Nothing else is in it. */
  lemma EncodedLength(address: seq<byte>, args: seq<Arg>)
    ensures |Encoded(address, args)| == |address| / 4 * 4 + 4 + ((|args| + 1) / 4 * 4 + 4) + Sizes(args)
  {
    hide Payload, TagsOf, Padded, Align4;
    PayloadLength(args);
    FieldSize(address);
    FieldSize([COMMA] + TagsOf(args));
  }
}
