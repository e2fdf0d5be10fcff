/** FuzzedDataProvider: strings and byte arrays from the front of the input, integers from its back. */
module FuzzedData {
  import opened Words
  import opened Memory

  type Input = seq<Byte>

  /** An integer type of 1, 2, 4 or 8 bytes. */
  datatype IntType = IntType(bytes: nat, signed: bool) {
    predicate Ok() { bytes in {1, 2, 4, 8} }
    function Modulus(): nat { Pow256(bytes) }
    function Lowest(): int { if signed then -(Modulus() / 2) else 0 }
    function Highest(): int { Lowest() + Modulus() - 1 }
    predicate Has(x: int) { Lowest() <= x <= Highest() }
  }

  const CHAR: IntType := IntType(1, true)
  const BACKSLASH: int := 92

  // ---------------------------------------------------------------- conversions

  /** static_cast of any integer, modulo the width. */
  function Cast(t: IntType, x: int): (r: int)
    requires t.Ok()
    ensures t.Ok() && t.Has(r)
  {
    var u := x % t.Modulus();
    Halves(t);
    if u > t.Highest() then u - t.Modulus() else u
  }

  lemma Halves(t: IntType)
    requires t.Ok()
    ensures t.Modulus() in {0x100, 0x1_0000, 0x1_0000_0000, WORD}
    ensures t.signed ==> t.Modulus() == 2 * (t.Modulus() / 2)
  {
    Pow256Values();
    assert Pow256(1) == 0x100 && Pow256(2) == 0x1_0000 && Pow256(4) == 0x1_0000_0000;
  }

  lemma CastFits(t: IntType, x: int)
    requires t.Ok() && t.Has(x)
    ensures Cast(t, x) == x
  {
    Halves(t);
  }

  lemma CastModulo(t: IntType, x: int, k: int)
    requires t.Ok()
    ensures Cast(t, x + k * t.Modulus()) == Cast(t, x)
  {
    ModuloAddition(x, k, t.Modulus());
  }

  lemma ModuloAddition(x: int, k: int, m: nat)
    requires m > 0
    ensures (x + k * m) % m == x % m
  {
    var q := x / m;
    assert x + k * m == (q + k) * m + x % m;
    QuotientUnique(x + k * m, m, q + k, x % m);
  }

  /** What the branch for large values computes with. */
  lemma UpperHalf(t: IntType, value: nat)
    requires t.Ok() && t.signed && t.Highest() < value < t.Modulus()
    ensures (value - t.Lowest()) % t.Modulus() == value + t.Lowest() && t.Has(value + t.Lowest())
    ensures Cast(t, value - t.Lowest()) == value + t.Lowest() == Cast(t, value + t.Lowest())
  {
    Halves(t);
    QuotientUnique(value - t.Lowest(), t.Modulus(), 1, value + t.Lowest());
    CastFits(t, value + t.Lowest());
  }

  /**
   * ConvertUnsignedToSigned; narrow operands are promoted to int before the subtraction. Both branches
   * give the two's complement value.
   */
  function ConvertUnsignedToSigned(t: IntType, value: nat, isModulo: bool): (r: int)
    requires t.Ok() && t.signed && value < t.Modulus()
    ensures r == if value <= t.Highest() then value else value - t.Modulus()
  {
    Halves(t);
    assert t.Lowest() + (value + t.Lowest()) == value - t.Modulus();
    assert value % t.Modulus() == value by { QuotientUnique(value, t.Modulus(), 0, value); }
    if isModulo then Cast(t, value)
    else if value <= t.Highest() then Cast(t, value)
    else
      UpperHalf(t, value);
      t.Lowest() + Cast(t, if t.bytes < 4 then value - t.Lowest() else (value - t.Lowest()) % t.Modulus())
  }

  // ---------------------------------------------------------------- byte strings

  predicate IsChar(c: int) { -128 <= c < 128 }

  /** The conversion of an input byte to char. */
  function ToChar(b: Byte): (c: int)
    ensures IsChar(c) && ToByte(c) == b
  {
    if b < 128 then b else b - 256
  }

  lemma CharIsConverted(b: Byte, isModulo: bool)
    ensures CHAR.Has(ToChar(b)) && ToChar(b) == ConvertUnsignedToSigned(CHAR, b, isModulo)
  {
    Halves(CHAR);
  }

  function ToByte(c: int): (b: Byte) { if 0 <= c < 256 then c else if -256 <= c < 0 then c + 256 else 0 }

  predicate IsString(s: seq<int>) { forall i :: 0 <= i < |s| ==> IsChar(s[i]) }

  function TakeBytes(data: Input, n: nat): (r: (Input, Input))
    ensures r.0 + r.1 == data && |r.0| == Min(n, |data|)
  {
    var k := Min(n, |data|);
    (data[..k], data[k..])
  }

  /** A string of at most `max` characters; a backslash before anything but a backslash ends it. */
  function TakeString(data: Input, max: nat): (r: (seq<int>, Input))
    ensures |r.0| <= max && IsString(r.0) && |r.1| <= |data|
  {
    if max == 0 || data == [] then ([], data)
    else if ToChar(data[0]) == BACKSLASH && |data| > 1 then
      if ToChar(data[1]) != BACKSLASH then ([], data[2..])
      else
        var r := TakeString(data[2..], max - 1);
        ([BACKSLASH] + r.0, r.1)
    else
      var r := TakeString(data[1..], max - 1);
      ([ToChar(data[0])] + r.0, r.1)
  }

  function PutString(s: seq<int>, max: nat): Input
    requires |s| <= max && IsString(s)
  {
    if s == [] then (if max == 0 then [] else [92, 0])
    else PutChar(s[0]) + PutString(s[1..], max - 1)
  }

  lemma CharRoundTrip(c: int)
    requires IsChar(c)
    ensures ToChar(ToByte(c)) == c
  {
  }

  lemma TakePlain(c: int, rest: Input, max: nat)
    requires IsChar(c) && c != BACKSLASH && max > 0
    ensures var r := TakeString(rest, max - 1); TakeString([ToByte(c)] + rest, max) == ([c] + r.0, r.1)
  {
    CharRoundTrip(c);
    assert ([ToByte(c)] + rest)[1..] == rest;
  }

  lemma TakeEscaped(rest: Input, max: nat)
    requires max > 0
    ensures var r := TakeString(rest, max - 1); TakeString([92, 92] + rest, max) == ([BACKSLASH] + r.0, r.1)
  {
    CharRoundTrip(BACKSLASH);
    assert ([92, 92] + rest)[2..] == rest;
  }

  lemma TakeEnd(rest: Input, max: nat)
    requires max > 0
    ensures TakeString([92, 0] + rest, max) == ([], rest)
  {
    CharRoundTrip(BACKSLASH);
    CharRoundTrip(0);
    assert ([92, 0] + rest)[2..] == rest;
  }

  /** How one character is encoded. */
  function PutChar(c: int): Input { if c == BACKSLASH then [92, 92] else [ToByte(c)] }

  lemma TakeChar(c: int, rest: Input, max: nat)
    requires IsChar(c) && max > 0
    ensures var r := TakeString(rest, max - 1); TakeString(PutChar(c) + rest, max) == ([c] + r.0, r.1)
  {
    if c == BACKSLASH { TakeEscaped(rest, max); } else { TakePlain(c, rest, max); }
  }

  /** Every string can be encoded, whatever comes behind it. */
  lemma {:induction false} StringRoundTrip(s: seq<int>, max: nat, tail: Input)
    requires |s| <= max && IsString(s)
    ensures TakeString(PutString(s, max) + tail, max) == (s, tail)
  {
    if s == [] && max == 0 {
      assert PutString(s, max) + tail == tail;
    } else if s == [] {
      TakeEnd(tail, max);
    } else {
      var put := PutString(s[1..], max - 1);
      assert PutString(s, max) + tail == PutChar(s[0]) + (put + tail);
      StringRoundTrip(s[1..], max - 1, tail);
      TakeChar(s[0], put + tail, max);
      assert s == [s[0]] + s[1..];
    }
  }

  // ---------------------------------------------------------------- integers

  /** The number of bytes that are pulled for a range. */
  function ByteLength(range: nat): nat { if range == 0 then 0 else 1 + ByteLength(range / 256) }

  /** The last byte is the most significant one. */
  function Value(s: Input): nat { if s == [] then 0 else s[0] + 256 * Value(s[1..]) }

  function TakeInt(data: Input, min: int, max: int): (r: (int, Input))
    requires min <= max
    ensures min <= r.0 <= max
    ensures |r.1| == |data| - Min(ByteLength(max - min), |data|) && r.1 == data[..|r.1|]
  {
    var n := Min(ByteLength(max - min), |data|);
    var raw := Value(data[|data| - n..]);
    Remainder(raw, max - min + 1);
    (min + raw % (max - min + 1), data[..|data| - n])
  }

  lemma Remainder(x: nat, m: nat)
    requires m > 0
    ensures 0 <= x % m < m && (x < m ==> x % m == x)
  {
    if x < m { QuotientUnique(x, m, 0, x); }
  }

  function PutInt(v: nat, n: nat): (s: Input)
    ensures |s| == n
  {
    if n == 0 then [] else [v % 256] + PutInt(v / 256, n - 1)
  }

  lemma {:induction false} ValueOfPut(v: nat, n: nat)
    requires v < Pow256(n)
    ensures Value(PutInt(v, n)) == v
  {
    if n == 0 {
    } else {
      ValueOfPut(v / 256, n - 1);
      assert PutInt(v, n)[1..] == PutInt(v / 256, n - 1);
    }
  }

  lemma {:induction false} ByteLengthExact(range: nat, n: nat)
    ensures range >= Pow256(n) <==> n < ByteLength(range)
    decreases n
  {
    if n == 0 {
    } else {
      ByteLengthExact(range / 256, n - 1);
    }
  }

  lemma {:induction false} ValueFits(s: Input)
    ensures Value(s) < Pow256(|s|)
  {
    if s == [] {
    } else {
      ValueFits(s[1..]);
    }
  }

  /** An integer is read from the bytes of its length at the end, and only from them. */
  lemma TakeIntFromEnd(before: Input, put: Input, min: int, max: int)
    requires min <= max && (|put| == ByteLength(max - min) || (|put| < ByteLength(max - min) && before == []))
    ensures TakeInt(before + put, min, max) == (min + Value(put) % (max - min + 1), before)
  {
    var data := before + put;
    assert data[|before|..] == put && data[..|before|] == before;
  }

  /** Every integer of the range can be encoded, whatever comes before it. */
  lemma IntRoundTrip(x: int, min: int, max: int, before: Input)
    requires min <= x <= max
    ensures TakeInt(before + PutInt(x - min, ByteLength(max - min)), min, max) == (x, before)
  {
    var n := ByteLength(max - min);
    TakeIntFromEnd(before, PutInt(x - min, n), min, max);
    ByteLengthExact(max - min, n);
    ValueOfPut(x - min, n);
    Remainder(x - min, max - min + 1);
  }

  // ---------------------------------------------------------------- scripts

  datatype Call = Bytes(n: nat) | String(max: nat) | Int(t: IntType, low: int, high: int)

  datatype Output = BytesOut(bytes: Input) | StringOut(chars: seq<int>) | IntOut(x: int)

  predicate CallOk(c: Call) { c.Int? ==> c.t.Ok() && c.t.Has(c.low) && c.t.Has(c.high) && c.low <= c.high }

  predicate ScriptOk(script: seq<Call>) { forall i :: 0 <= i < |script| ==> CallOk(script[i]) }

  function Take(c: Call, data: Input): (Output, Input)
    requires CallOk(c)
  {
    match c
    case Bytes(n) => var r := TakeBytes(data, n); (BytesOut(r.0), r.1)
    case String(max) => var r := TakeString(data, max); (StringOut(r.0), r.1)
    case Int(_, low, high) => var r := TakeInt(data, low, high); (IntOut(r.0), r.1)
  }

  function Run(script: seq<Call>, data: Input): (seq<Output>, Input)
    requires ScriptOk(script)
  {
    if script == [] then ([], data)
    else
      var first := Take(script[0], data);
      var rest := Run(script[1..], first.1);
      ([first.0] + rest.0, rest.1)
  }

  /** The results that a call can have when there is enough input. */
  predicate Admissible(c: Call, o: Output) {
    match c
    case Bytes(n) => o.BytesOut? && |o.bytes| == n
    case String(max) => o.StringOut? && |o.chars| <= max && IsString(o.chars)
    case Int(_, low, high) => o.IntOut? && low <= o.x <= high
  }

  predicate AllAdmissible(script: seq<Call>, outs: seq<Output>) {
    |outs| == |script| && forall i :: 0 <= i < |script| ==> Admissible(script[i], outs[i])
  }

  /** What a call reads from the front. */
  function Front(c: Call, o: Output): Input
    requires Admissible(c, o)
  {
    match c
    case Bytes(_) => o.bytes
    case String(max) => PutString(o.chars, max)
    case Int(_, _, _) => []
  }

  /** What a call reads from the back. */
  function Back(c: Call, o: Output): Input
    requires Admissible(c, o)
  {
    match c
    case Bytes(_) => []
    case String(_) => []
    case Int(_, low, high) => PutInt(o.x - low, ByteLength(high - low))
  }

  /** Strings in order in front of `middle`, integers in reverse order behind it. */
  function Encode(script: seq<Call>, outs: seq<Output>, middle: Input): Input
    requires AllAdmissible(script, outs)
  {
    if script == [] then middle
    else Front(script[0], outs[0]) + Encode(script[1..], outs[1..], middle) + Back(script[0], outs[0])
  }

  lemma CallRoundTrip(c: Call, o: Output, middle: Input)
    requires CallOk(c) && Admissible(c, o)
    ensures Take(c, Front(c, o) + middle + Back(c, o)) == (o, middle)
  {
    match c
    case Bytes(n) => assert o.bytes + middle + [] == o.bytes + middle;
    case String(max) =>
      StringRoundTrip(o.chars, max, middle);
      assert PutString(o.chars, max) + middle + [] == PutString(o.chars, max) + middle;
    case Int(_, low, high) =>
      IntRoundTrip(o.x, low, high, middle);
      assert [] + middle == middle;
  }

  /** Every script returns the results it was encoded for, and leaves the middle. */
  lemma {:induction false} ScriptRoundTrip(script: seq<Call>, outs: seq<Output>, middle: Input)
    requires ScriptOk(script) && AllAdmissible(script, outs)
    ensures Run(script, Encode(script, outs, middle)) == (outs, middle)
  {
    if script == [] {
    } else {
      ScriptRoundTrip(script[1..], outs[1..], middle);
      FirstCall(script, outs, Encode(script[1..], outs[1..], middle), middle);
    }
  }

  lemma FirstCall(script: seq<Call>, outs: seq<Output>, inner: Input, middle: Input)
    requires ScriptOk(script) && AllAdmissible(script, outs) && script != []
    requires Run(script[1..], inner) == (outs[1..], middle)
    ensures Run(script, Front(script[0], outs[0]) + inner + Back(script[0], outs[0])) == (outs, middle)
  {
    CallRoundTrip(script[0], outs[0], inner);
    RunFirst(script, Front(script[0], outs[0]) + inner + Back(script[0], outs[0]), outs, inner, middle);
  }

  lemma RunFirst(script: seq<Call>, data: Input, outs: seq<Output>, rest: Input, middle: Input)
    requires ScriptOk(script) && script != [] && outs != [] && Take(script[0], data) == (outs[0], rest)
    requires Run(script[1..], rest) == (outs[1..], middle)
    ensures Run(script, data) == (outs, middle)
  {
    assert outs == [outs[0]] + outs[1..];
  }

  lemma {:induction false} StringLeavesEnd(data: Input, max: nat)
    ensures var rest := TakeString(data, max).1; rest == data[|data| - |rest|..]
  {
    if max > 0 && |data| > 1 && ToChar(data[0]) == BACKSLASH {
      if ToChar(data[1]) == BACKSLASH { StringLeavesEnd(data[2..], max - 1); }
    } else if max > 0 && data != [] {
      StringLeavesEnd(data[1..], max - 1);
    }
  }

  /** The bytes that a call takes from the front of the input, and from its back. */
  function TakenFront(c: Call, data: Input): Input
    requires CallOk(c)
  {
    if c.Int? then [] else TakeLengths(c, data); data[..|data| - |Take(c, data).1|]
  }

  function TakenBack(c: Call, data: Input): Input
    requires CallOk(c)
  {
    if c.Int? then data[|Take(c, data).1|..] else []
  }

  lemma TakeLengths(c: Call, data: Input)
    requires CallOk(c)
    ensures |Take(c, data).1| <= |data|
  {
  }

  lemma CallLeavesMiddle(c: Call, data: Input)
    requires CallOk(c)
    ensures data == TakenFront(c, data) + Take(c, data).1 + TakenBack(c, data)
  {
    var rest := Take(c, data).1;
    if c.Int? {
      assert data == rest + data[|rest|..];
    } else {
      if c.String? { StringLeavesEnd(data, c.max); }
      assert data == data[..|data| - |rest|] + rest;
    }
  }

  lemma {:induction false} StringOfTaken(data: Input, max: nat)
    ensures var r := TakeString(data, max); TakeString(data[..|data| - |r.1|], max) == (r.0, [])
  {
    var r := TakeString(data, max);
    var taken := data[..|data| - |r.1|];
    if max == 0 || data == [] {
      assert taken == [];
    } else if ToChar(data[0]) == BACKSLASH && |data| > 1 {
      if ToChar(data[1]) == BACKSLASH {
        StringOfTaken(data[2..], max - 1);
        assert taken[2..] == data[2..][..|data[2..]| - |r.1|];
      } else {
        assert taken[2..] == [];
      }
    } else {
      StringOfTaken(data[1..], max - 1);
      assert taken[1..] == data[1..][..|data[1..]| - |r.1|];
      assert |data| == 1 ==> taken == data;
    }
  }

  /** A call returns what the bytes it takes say, whatever the rest of the input is. */
  lemma CallReadsWhatItTakes(c: Call, data: Input)
    requires CallOk(c)
    ensures Take(c, TakenFront(c, data) + TakenBack(c, data)) == (Take(c, data).0, [])
  {
    var front, back := TakenFront(c, data), TakenBack(c, data);
    match c
    case Bytes(n) => assert front + back == TakeBytes(data, n).0;
    case String(max) =>
      StringOfTaken(data, max);
      assert front + back == front;
    case Int(_, low, high) =>
      var rest := TakeInt(data, low, high).1;
      assert front + back == [] + back && data == rest + back;
      TakeIntFromEnd(rest, back, low, high);
      TakeIntFromEnd([], back, low, high);
  }

  /** What the calls of a script take from the front, in their order. */
  function Fronts(script: seq<Call>, data: Input): Input
    requires ScriptOk(script)
  {
    if script == [] then []
    else TakenFront(script[0], data) + Fronts(script[1..], Take(script[0], data).1)
  }

  /** What the calls of a script take from the back, the first call last. */
  function Backs(script: seq<Call>, data: Input): Input
    requires ScriptOk(script)
  {
    if script == [] then []
    else Backs(script[1..], Take(script[0], data).1) + TakenBack(script[0], data)
  }

  /** What the calls take and what is left make up the whole input: no byte is used twice. */
  lemma {:induction false} ScriptLeavesMiddle(script: seq<Call>, data: Input)
    requires ScriptOk(script)
    ensures data == Fronts(script, data) + Run(script, data).1 + Backs(script, data)
  {
    if script == [] {
      assert [] + data + [] == data;
    } else {
      var rest := Take(script[0], data).1;
      CallLeavesMiddle(script[0], data);
      ScriptLeavesMiddle(script[1..], rest);
      Regroup(TakenFront(script[0], data), Fronts(script[1..], rest), Run(script, data).1, Backs(script[1..], rest),
              TakenBack(script[0], data));
    }
  }

  lemma Regroup(f1: Input, f: Input, middle: Input, b: Input, b1: Input)
    ensures f1 + (f + middle + b) + b1 == (f1 + f) + middle + (b + b1)
  {
  }
}
