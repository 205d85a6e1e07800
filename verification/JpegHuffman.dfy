/** Canonical Huffman codes: the table construction of Annex C of ITU-T T.81, and a decoder
    (section F.2.2.3) that recovers every value from its code. */
module JpegHuffman {
  import opened Results
  import opened Words

  datatype HCode = HCode(code: nat, len: nat)

  /** How many codes there are of each length (index 0 unused), and the values in code order. */
  datatype HuffSpec = HuffSpec(bits: seq<nat>, vals: seq<byte>)

  /** The code length of each value in code order, for codes of up to `n` bits. */
  function Lengths(bits: seq<nat>, n: nat): (lens: seq<nat>)
    requires n < |bits|
    ensures forall k :: 0 <= k < |lens| ==> 1 <= lens[k] <= n
    ensures forall j, k :: 0 <= j < k < |lens| ==> lens[j] <= lens[k]
  {
    if n == 0 then [] else Lengths(bits, n - 1) + seq(bits[n], i => n)
  }

  ghost predicate Short(lens: seq<nat>) {
    forall k :: 0 <= k < |lens| ==> 1 <= lens[k] <= 16
  }

  /** How much of the 2^16 code space the first `k` codes take up. */
  function Used(lens: seq<nat>, k: nat): nat
    requires Short(lens) && k <= |lens|
  {
    if k == 0 then 0 else Used(lens, k - 1) + Pow2(16 - lens[k - 1])
  }

  ghost predicate Distinct(vals: seq<byte>) {
    forall j, k :: 0 <= j < k < |vals| ==> vals[j] != vals[k]
  }

  ghost predicate ValidLengths(lens: seq<nat>) {
    && Short(lens)
    && (forall j, k :: 0 <= j < k < |lens| ==> lens[j] <= lens[k])
    && Used(lens, |lens|) <= Pow2(16)  // Kraft's inequality
  }

  /** The code of the `k`-th value starts where the earlier codes end in the code space. */
  function CodeOf(lens: seq<nat>, k: nat): HCode
    requires Short(lens) && k < |lens|
  {
    HCode(Shr(Used(lens, k), 16 - lens[k]), lens[k])
  }

  function CodeBits(c: HCode): seq<bool> {
    BitsOf(c.code, c.len)
  }

  lemma {:induction false} UsedMonotone(lens: seq<nat>, j: nat, k: nat)
    requires Short(lens) && j <= k <= |lens|
    ensures Used(lens, j) <= Used(lens, k)
  {
    if j < k {
      UsedMonotone(lens, j, k - 1);
    }
  }

  /** Earlier codes keep their share of the code space. */
  lemma {:induction false} UsedGap(lens: seq<nat>, j: nat, k: nat)
    requires Short(lens) && j < k <= |lens|
    ensures Used(lens, j) + Pow2(16 - lens[j]) <= Used(lens, k)
  {
    if j + 1 < k {
      UsedGap(lens, j, k - 1);
    }
  }

  lemma UsedStep(lens: seq<nat>, k: nat)
    requires ValidLengths(lens) && k < |lens|
    ensures Used(lens, k) + Pow2(16 - lens[k]) == Used(lens, k + 1) <= Pow2(16)
  {
    UsedMonotone(lens, k + 1, |lens|);
  }

  /** The next code of the same length, and its place when codes get longer by `d`. */
  lemma NextPlace(code: nat, d: nat, n: nat)
    ensures Shl(code, d + n) + Pow2(d + n) == Shl(Shl(code + 1, d), n)
  {
    ShlOne(d + n);
    ShlAdd(code, 1, d + n);
    ShlShl(code + 1, d, n);
  }

  /** Each code is exactly its place in the code space, and fits its length. */
  lemma {:induction false} CodeExact(lens: seq<nat>, k: nat)
    requires ValidLengths(lens) && k < |lens|
    ensures Shl(CodeOf(lens, k).code, 16 - lens[k]) == Used(lens, k)
    ensures CodeOf(lens, k).code < Pow2(lens[k])
  {
    hide Shl, Shr, Pow2;
    if k == 0 {
      ShlZero(16 - lens[0]);
      PlaceIsCode(lens, 0, 0);
    } else {
      CodeExact(lens, k - 1);
      PlaceStep(lens, k, CodeOf(lens, k - 1).code);
      PlaceIsCode(lens, k, Shl(CodeOf(lens, k - 1).code + 1, lens[k] - lens[k - 1]));
    }
  }

  lemma PlaceStep(lens: seq<nat>, k: nat, prev: nat)
    requires ValidLengths(lens) && 0 < k < |lens|
    requires Shl(prev, 16 - lens[k - 1]) == Used(lens, k - 1)
    ensures Shl(Shl(prev + 1, lens[k] - lens[k - 1]), 16 - lens[k]) == Used(lens, k)
  {
    hide Shl, Pow2;
    UsedStep(lens, k - 1);
    NextPlace(prev, lens[k] - lens[k - 1], 16 - lens[k]);
  }

  lemma PlaceIsCode(lens: seq<nat>, k: nat, code: nat)
    requires ValidLengths(lens) && k < |lens|
    requires Shl(code, 16 - lens[k]) == Used(lens, k)
    ensures CodeOf(lens, k) == HCode(code, lens[k]) && code < Pow2(lens[k])
  {
    hide Shl, Shr, Pow2, Low;
    UsedStep(lens, k);
    ShlFits(code, lens[k], 16 - lens[k]);
    SplitWord(code, 0, 16 - lens[k]);
  }

  /** A code extending code `a` by `d` bits lies in the share of the code space of `a`. */
  lemma ExtensionWithin(a: nat, d: nat, low: nat, n: nat)
    requires low < Pow2(d)
    ensures Shl(a, d + n) <= Shl(Shl(a, d) + low, n) < Shl(a, d + n) + Pow2(d + n)
  {
    ShlAdd(Shl(a, d), low, n);
    ShlShl(a, d, n);
    ShlBound(low, d, n);
  }

  lemma PrefixExtends(a: HCode, b: HCode) returns (low: nat)
    requires a.code < Pow2(a.len) && b.code < Pow2(b.len)
    requires CodeBits(a) <= CodeBits(b)
    ensures a.len <= b.len && low < Pow2(b.len - a.len)
    ensures b.code == Shl(a.code, b.len - a.len) + low
  {
    low := ValueOf(CodeBits(b)[a.len..]);
    ValueOfSplit(CodeBits(b), a.len);
    assert CodeBits(b)[..a.len] == CodeBits(a);
    ValueOfBitsOf(a.code, a.len);
    ValueOfBitsOf(b.code, b.len);
  }

  /** No code is a prefix of another. */
  lemma PrefixFree(lens: seq<nat>, i: nat, j: nat)
    requires ValidLengths(lens) && i < |lens| && j < |lens|
    requires CodeBits(CodeOf(lens, i)) <= CodeBits(CodeOf(lens, j))
    ensures i == j
  {
    hide Shl, Pow2, Used, BitsOf;
    CodeExact(lens, i);
    CodeExact(lens, j);
    PrefixWithinShare(lens, i, j, CodeOf(lens, i), CodeOf(lens, j));
    SharesDisjoint(lens, i, j);
  }

  /** `a` is the code of place `i`. */
  ghost predicate HasPlace(lens: seq<nat>, i: nat, a: HCode) {
    && Short(lens) && i < |lens|
    && a.len == lens[i] && a.code < Pow2(a.len)
    && Shl(a.code, 16 - lens[i]) == Used(lens, i)
  }

  lemma PrefixWithinShare(lens: seq<nat>, i: nat, j: nat, a: HCode, b: HCode)
    requires HasPlace(lens, i, a) && HasPlace(lens, j, b)
    requires CodeBits(a) <= CodeBits(b)
    ensures Used(lens, i) <= Used(lens, j) < Used(lens, i) + Pow2(16 - lens[i])
  {
    hide Shl, Pow2, Used, BitsOf;
    var low := PrefixExtends(a, b);
    WithinShare(lens, i, j, a.code, low);
  }

  lemma WithinShare(lens: seq<nat>, i: nat, j: nat, code: nat, low: nat)
    requires Short(lens) && i < |lens| && j < |lens| && lens[i] <= lens[j]
    requires Shl(code, 16 - lens[i]) == Used(lens, i) && low < Pow2(lens[j] - lens[i])
    requires Shl(Shl(code, lens[j] - lens[i]) + low, 16 - lens[j]) == Used(lens, j)
    ensures Used(lens, i) <= Used(lens, j) < Used(lens, i) + Pow2(16 - lens[i])
  {
    ExtensionWithin(code, lens[j] - lens[i], low, 16 - lens[j]);
  }

  lemma SharesDisjoint(lens: seq<nat>, i: nat, j: nat)
    requires Short(lens) && i < |lens| && j < |lens|
    requires Used(lens, i) <= Used(lens, j) < Used(lens, i) + Pow2(16 - lens[i])
    ensures i == j
  {
    if i < j {
      UsedGap(lens, i, j);
    } else if j < i {
      UsedGap(lens, j, i);
    }
  }

  // ---- decoding ----

  /** The first value whose code is `c`. */
  function Find(lens: seq<nat>, c: HCode, k: nat): (r: Option<nat>)
    requires Short(lens)
    requires k <= |lens|
    ensures r.Some? ==> k <= r.value < |lens| && CodeOf(lens, r.value) == c
    ensures r.None? ==> forall i :: k <= i < |lens| ==> CodeOf(lens, i) != c
    decreases |lens| - k
  {
    if k == |lens| then None
    else if CodeOf(lens, k) == c then Some(k)
    else Find(lens, c, k + 1)
  }

  /** Reads bits one at a time, as DECODE does, until those read (`len` so far, of value `code`) are a
      code; gives the index of the value and the bits not read. */
  function DecodeIndex(lens: seq<nat>, bits: seq<bool>, code: nat, len: nat): (r: Option<(nat, seq<bool>)>)
    requires Short(lens)
    ensures r.Some? ==> r.value.0 < |lens| && |r.value.1| < |bits|
    decreases |bits|
  {
    if len == 16 || bits == [] then None
    else
      var code' := 2 * code + if bits[0] then 1 else 0;
      match Find(lens, HCode(code', len + 1), 0)
      case Some(k) => Some((k, bits[1..]))
      case None => DecodeIndex(lens, bits[1..], code', len + 1)
  }

  lemma FindCode(lens: seq<nat>, k: nat, n: nat)
    requires ValidLengths(lens) && k < |lens| && n <= lens[k]
    ensures var r := Find(lens, HCode(ValueOf(CodeBits(CodeOf(lens, k))[..n]), n), 0);
            if n == lens[k] then r == Some(k) else r.None?
  {
    var bits := CodeBits(CodeOf(lens, k));
    var found := Find(lens, HCode(ValueOf(bits[..n]), n), 0);
    if n == lens[k] {
      CodeExact(lens, k);
      ValueOfBitsOf(CodeOf(lens, k).code, n);
      assert bits[..n] == bits;
    }
    if found.Some? {
      BitsOfValueOf(bits[..n]);
      PrefixFree(lens, found.value, k);
    }
  }

  lemma ValueOfNext(bits: seq<bool>, n: nat)
    requires n < |bits|
    ensures ValueOf(bits[..n + 1]) == 2 * ValueOf(bits[..n]) + if bits[n] then 1 else 0
  {
    assert bits[..n + 1][..n] == bits[..n];
  }

  /** Having read the first `n` bits of a code, the decoder finds its value and stops right after it. */
  lemma {:induction false} DecodeIndexCorrect(lens: seq<nat>, k: nat, n: nat, rest: seq<bool>)
    requires ValidLengths(lens) && k < |lens| && n < lens[k]
    ensures var bits := CodeBits(CodeOf(lens, k));
            DecodeIndex(lens, bits[n..] + rest, ValueOf(bits[..n]), n) == Some((k, rest))
    decreases lens[k] - n
  {
    hide Find, Used, ValueOf, BitsOf;
    var bits := CodeBits(CodeOf(lens, k));
    var input := bits[n..] + rest;
    assert input[0] == bits[n] && input[1..] == bits[n + 1..] + rest;
    ValueOfNext(bits, n);
    FindCode(lens, k, n + 1);
    if n + 1 == lens[k] {
      assert input[1..] == rest;
    } else {
      DecodeIndexCorrect(lens, k, n + 1, rest);
    }
  }

  // ---- tables ----

  /** A table the construction works for: distinct values and a Kraft-valid set of lengths. */
  ghost predicate Proper(spec: HuffSpec) {
    && |spec.bits| == 17
    && |Lengths(spec.bits, 16)| == |spec.vals|
    && Distinct(spec.vals)
    && ValidLengths(Lengths(spec.bits, 16))
  }

  /** `table`, indexed by value, holds the code of every value of `spec`. */
  ghost predicate Encodes(table: seq<HCode>, spec: HuffSpec) {
    && Proper(spec)
    && |table| == 256
    && (forall k :: 0 <= k < |spec.vals| ==> table[spec.vals[k]] == CodeOf(Lengths(spec.bits, 16), k))
  }

  /** Codes in the table can be put: each fits its length, which is at most 16. */
  lemma TableCodesFit(table: seq<HCode>, spec: HuffSpec, v: byte)
    requires Encodes(table, spec) && v in spec.vals
    ensures 1 <= table[v].len <= 16 && table[v].code < Pow2(table[v].len)
  {
    var k :| 0 <= k < |spec.vals| && spec.vals[k] == v;
    CodeExact(Lengths(spec.bits, 16), k);
  }

  function DecodeValue(spec: HuffSpec, bits: seq<bool>): (r: Option<(byte, seq<bool>)>)
    requires Proper(spec)
    ensures r.Some? ==> |r.value.1| < |bits|
  {
    match DecodeIndex(Lengths(spec.bits, 16), bits, 0, 0)
    case Some(hit) => Some((spec.vals[hit.0], hit.1))
    case None => None
  }

  /** Every value coded with the table is decoded, whatever follows it. */
  lemma DecodeValueCorrect(table: seq<HCode>, spec: HuffSpec, v: byte, rest: seq<bool>)
    requires Encodes(table, spec) && v in spec.vals
    ensures DecodeValue(spec, CodeBits(table[v]) + rest) == Some((v, rest))
  {
    var k :| 0 <= k < |spec.vals| && spec.vals[k] == v;
    var lens := Lengths(spec.bits, 16);
    var bits := CodeBits(CodeOf(lens, k));
    DecodeIndexCorrect(lens, k, 0, rest);
    assert bits[0..] == bits;
  }

  lemma {:induction false} LengthsExtend(bits: seq<nat>, n: nat, m: nat)
    requires n <= m < |bits|
    ensures Lengths(bits, n) <= Lengths(bits, m)
  {
    if n < m {
      LengthsExtend(bits, n, m - 1);
    }
  }

  /** Where the codes of length `n` are. */
  lemma LengthAt(bits: seq<nat>, n: nat, m: nat)
    requires 1 <= n <= m < |bits|
    ensures var k := |Lengths(bits, n - 1)|;
            k + bits[n] == |Lengths(bits, n)| <= |Lengths(bits, m)| && forall i :: k <= i < k + bits[n] ==> Lengths(bits, m)[i] == n
  {
    LengthsExtend(bits, n, m);
  }

  /** The entries of the first `k` values are their codes; those of values not in `vals` are as
      `before`. */
  ghost predicate Filled(table: seq<HCode>, before: seq<HCode>, vals: seq<byte>, lens: seq<nat>, k: nat)
    requires Short(lens) && |lens| == |vals|
  {
    && |table| == |before| == 256
    && k <= |vals|
    && (forall j :: 0 <= j < k ==> table[vals[j]] == CodeOf(lens, j))
    && (forall v: byte :: v !in vals ==> table[v] == before[v])
  }

  lemma FillNext(table: seq<HCode>, before: seq<HCode>, vals: seq<byte>, lens: seq<nat>, k: nat, code: nat)
    requires ValidLengths(lens) && |lens| == |vals| && Distinct(vals)
    requires Filled(table, before, vals, lens, k) && k < |vals|
    requires Shl(code, 16 - lens[k]) == Used(lens, k)
    ensures Filled(table[vals[k] := HCode(code % 0x1_0000, lens[k])], before, vals, lens, k + 1)
  {
    hide Shl, Used, CodeOf;
    CodeFits(lens, k, code);
  }

  lemma NextSameLength(lens: seq<nat>, k: nat, code: nat)
    requires ValidLengths(lens) && k < |lens|
    requires Shl(code, 16 - lens[k]) == Used(lens, k)
    ensures Shl(code + 1, 16 - lens[k]) == Used(lens, k + 1)
  {
    NextPlace(code, 0, 16 - lens[k]);
  }

  lemma CodeFits(lens: seq<nat>, k: nat, code: nat)
    requires ValidLengths(lens) && k < |lens|
    requires Shl(code, 16 - lens[k]) == Used(lens, k)
    ensures code % 0x1_0000 == code && CodeOf(lens, k) == HCode(code, lens[k])
  {
    hide Shl, Used, CodeOf;
    PlaceIsCode(lens, k, code);
    Pow2Monotone(lens[k], 16);
    Pow2Of16();
  }

  /** The codes of one length: the inner loop of the construction. */
  method AssignLength(count: nat, vals: seq<byte>, out: array<HCode>, len: nat, code0: nat, k0: nat,
                      ghost lens: seq<nat>, ghost before: seq<HCode>)
    returns (code: nat, k: nat)
    requires out.Length == 256 && ValidLengths(lens) && |lens| == |vals| && Distinct(vals)
    requires 1 <= len <= 16 && k0 + count <= |vals|
    requires forall i :: k0 <= i < k0 + count ==> lens[i] == len
    requires Shl(code0, 16 - len) == Used(lens, k0) && Filled(out[..], before, vals, lens, k0)
    modifies out
    ensures k == k0 + count
    ensures Shl(code, 16 - len) == Used(lens, k) && Filled(out[..], before, vals, lens, k)
  {
    hide Shl, Used, CodeOf;
    code, k := code0, k0;
    var i := 0;
    while i < count && k < |vals|
      invariant 0 <= i <= count && k == k0 + i
      invariant Shl(code, 16 - len) == Used(lens, k)
      invariant Filled(out[..], before, vals, lens, k)
    {
      FillNext(out[..], before, vals, lens, k, code);
      NextSameLength(lens, k, code);
      out[vals[k]] := HCode(code % 0x1_0000, len);
      code := code + 1;
      k := k + 1;
      i := i + 1;
    }
  }

  lemma LongerPlace(code: nat, len: nat)
    ensures len < 16 ==> Shl(Shl(code, 1), 16 - (len + 1)) == Shl(code, 16 - len)
  {
    if len < 16 {
      ShlShl(code, 1, 16 - (len + 1));
    }
  }

  /** Fills in the codes, leaving the entries of all other values as they were. */
  method BuildHuff(spec: HuffSpec, out: array<HCode>)
    requires out.Length == 256
    requires Proper(spec)
    modifies out
    ensures Encodes(out[..], spec)
    ensures forall v: byte :: v !in spec.vals ==> out[v] == old(out[v])
  {
    hide *;
    ghost var before := out[..];
    var code: nat, k: nat := 0, 0;
    var len: nat := 1;
    StartTable(spec, before);
    ghost var lens := Lengths(spec.bits, 16);
    while len <= 16
      invariant 1 <= len <= 17
      invariant k == |Lengths(spec.bits, len - 1)| <= |spec.vals|
      invariant len <= 16 ==> Shl(code, 16 - len) == Used(lens, k)
      invariant Filled(out[..], before, spec.vals, lens, k)
    {
      LengthAt(spec.bits, len, 16);
      code, k := AssignLength(spec.bits[len], spec.vals, out, len, code, k, lens, before);
      LongerPlace(code, len);
      code := Shl(code, 1);
      len := len + 1;
    }
    FilledEncodes(out[..], before, spec);
    forall v: byte | v !in spec.vals
      ensures out[v] == old(out[v])
    {
      assert out[v] == out[..][v] && before[v] == old(out[v]);
    }
  }

  lemma StartTable(spec: HuffSpec, table: seq<HCode>)
    requires Proper(spec) && |table| == 256
    ensures var lens := Lengths(spec.bits, 16);
            && |spec.bits| == 17 && ValidLengths(lens) && |lens| == |spec.vals| && Distinct(spec.vals)
            && |Lengths(spec.bits, 0)| == 0 && Shl(0, 15) == Used(lens, 0)
            && Filled(table, table, spec.vals, lens, 0)
  {
    ShlZero(15);
  }

  lemma FilledEncodes(table: seq<HCode>, before: seq<HCode>, spec: HuffSpec)
    requires Proper(spec) && Filled(table, before, spec.vals, Lengths(spec.bits, 16), |spec.vals|)
    ensures Encodes(table, spec)
    ensures |table| == |before| && forall v: byte :: v !in spec.vals ==> table[v] == before[v]
  {
  }
}
