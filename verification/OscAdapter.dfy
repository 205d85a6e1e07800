/** The adapter's encoder and parser. */
module OscAdapter {
  import opened Words
  import opened Osc

  // ---- encoding ----

  lemma PaddedAfter(head: seq<byte>, s: seq<byte>)
    requires |head| % 4 == 0
    ensures Padded(head + s) == head + Padded(s)
  {
    AlignAfter(|head|, |s|);
  }

  /** Pushes zero bytes until the length is a multiple of four. */
  method PadOut(start: seq<byte>) returns (out: seq<byte>)
    ensures out == Padded(start)
  {
    out := start;
    ghost var k: nat := 0;
    while |out| % 4 != 0
      invariant |out| == |start| + k <= Align4(|start|)
      invariant out == start + seq(k, _ => 0)
      decreases Align4(|start|) - |out|
    {
      out := out + [0];
      k := k + 1;
    }
  }

  method EncodeMessage(address: seq<byte>, args: seq<Arg>) returns (out: seq<byte>)
    ensures out == Encoded(address, args)
  {
    hide Padded, Payload, WordBytes, Align4;
    out := address;
    out := out + [0];
    out := PadOut(out);
    ghost var head := out;

    out := out + [COMMA];
    var k: nat := 0;
    while k < |args|
      invariant k <= |args|
      invariant out == head + ([COMMA] + TagsOf(args)[..k])
    {
      out := out + [TagOf(args[k])];
      k := k + 1;
    }
    assert TagsOf(args)[..k] == TagsOf(args);
    out := out + [0];
    assert out == head + ([COMMA] + TagsOf(args) + [0]);
    PaddedAfter(head, [COMMA] + TagsOf(args) + [0]);
    out := PadOut(out);
    ghost var front := out;

    k := 0;
    NoPayload();
    assert args[..0] == [];
    while k < |args|
      invariant k <= |args|
      invariant out == front + Payload(args[..k])
    {
      PayloadAligned(args[..k]);
      SumAligned(front, Payload(args[..k]));
      out := EncodeArg(args[k], out);
      PayloadStep(args, k);
      k := k + 1;
    }
    assert args[..k] == args;
  }

  method EncodeArg(a: Arg, start: seq<byte>) returns (out: seq<byte>)
    requires |start| % 4 == 0
    ensures out == start + ArgBytes(a)
  {
    hide Padded, WordBytes, Align4;
    out := start;
    match a {
      case Int(i) => out := out + WordBytes(Unsigned(i));
      case Float(bits) => out := out + WordBytes(bits);
      case Str(s) =>
        out := out + s;
        out := out + [0];
        assert out == start + (s + [0]);
        PaddedAfter(start, s + [0]);
        out := PadOut(out);
      case Blob(b) =>
        out := out + WordBytes(|b| % 0x1_0000_0000);
        PaddedAfter(out, b);
        out := out + b;
        out := PadOut(out);
      case Plain(_) =>
    }
  }

  lemma NoPayload()
    ensures Payload([]) == []
  {
  }

  lemma {:induction false} PayloadConcat(a: seq<Arg>, b: seq<Arg>)
    ensures Payload(a + b) == Payload(a) + Payload(b)
    decreases |a|
  {
    hide ArgBytes;
    if a == [] {
      assert a + b == b;
    } else {
      assert (a + b)[1..] == a[1..] + b;
      PayloadConcat(a[1..], b);
    }
  }

  lemma PayloadStep(args: seq<Arg>, k: nat)
    requires k < |args|
    ensures Payload(args[..k + 1]) == Payload(args[..k]) + ArgBytes(args[k])
  {
    hide ArgBytes;
    assert args[..k + 1] == args[..k] + [args[k]];
    PayloadConcat(args[..k], [args[k]]);
    assert Payload([args[k]]) == ArgBytes(args[k]) + Payload([args[k]][1..]);
  }

  // ---- parsing ----

  method FindNul(d: seq<byte>, p: nat) returns (q: nat)
    ensures q == NulAt(d, p)
  {
    q := p;
    while q < |d| && d[q] != 0
      invariant p <= q && NulAt(d, q) == NulAt(d, p)
      decreases |d| - q
    {
      q := q + 1;
    }
  }

  method ParseArg(d: seq<byte>, tag: byte, p: nat) returns (step: Step)
    ensures step == ReadArg(d, tag, p)
  {
    hide NulAt, WordAt;
    if tag == TAG_I {
      if |d| < p + 4 {
        return Reject;
      }
      return Read(Int(Signed(WordAt(d, p))), p + 4);
    }
    if tag == TAG_F {
      if |d| < p + 4 {
        return Reject;
      }
      return Read(Float(WordAt(d, p)), p + 4);
    }
    if tag == TAG_S {
      var end := FindNul(d, p);
      var s: seq<byte> := [];
      if p < |d| {
        s := d[p..end];
      }
      return Read(Str(s), Align4(end + 1));
    }
    if tag == TAG_B {
      if |d| < p + 4 {
        return Reject;
      }
      var size := WordAt(d, p);
      if MAX_INT < size || MAX_INT < p + 4 + size {
        return Overflow;
      }
      if |d| < p + 4 + size {
        return Reject;
      }
      return Read(Blob(d[p + 4..p + 4 + size]), Align4(p + 4 + size));
    }
    return Read(Plain(tag), p);
  }

  /** Parses a packet; bundles call for the parse of their first element. */
  method ParsePacket(d: seq<byte>) returns (r: Outcome)
    ensures r == Parse(d)
    decreases |d|
  {
    hide ReadArg, NulAt, WordAt, Align4;
    if |d| < 4 {
      return Rejected;
    }
    if IsBundle(d) {
      if |d| < 20 {
        return Rejected;
      }
      var size: int := Signed(WordAt(d, 16));
      if MAX_INT < 20 + size {
        return Undefined;
      }
      if |d| < 20 + size || size < 0 {
        return Rejected;
      }
      r := ParsePacket(d[20..20 + size]);
      return;
    }

    var addressEnd := FindNul(d, 0);
    if |d| <= addressEnd {
      return Rejected;
    }
    var address := d[..addressEnd];
    var p := Align4(addressEnd + 1);
    if |d| <= p {
      return Message(address, []);
    }
    if d[p] != COMMA {
      return Rejected;
    }
    p := p + 1;
    var tagsEnd := FindNul(d, p);
    if |d| <= tagsEnd {
      return Rejected;
    }
    var tags := d[p..tagsEnd];
    p := Align4(tagsEnd + 1);
    r := ParseArgs(d, tags, p, address);
  }

  method ParseArgs(d: seq<byte>, tags: seq<byte>, start: nat, address: seq<byte>) returns (r: Outcome)
    ensures r == ReadArgs(d, tags, start, address, [])
  {
    hide ReadArg;
    var args: seq<Arg> := [];
    var p := start;
    var k: nat := 0;
    while k < |tags|
      invariant k <= |tags|
      invariant ReadArgs(d, tags[k..], p, address, args) == ReadArgs(d, tags, start, address, [])
    {
      var step := ParseArg(d, tags[k], p);
      assert tags[k..][1..] == tags[k + 1..];
      match step {
        case Reject => return Rejected;
        case Overflow => return Undefined;
        case Read(arg, next) =>
          args := args + [arg];
          p := next;
      }
      k := k + 1;
    }
    return Message(address, args);
  }
}
