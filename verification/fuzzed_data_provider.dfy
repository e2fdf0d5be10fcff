/** The class FuzzedDataProvider, method by method against what its calls take from the input. */
module FuzzedDataProviders {
  import opened Words
  import opened Memory
  import opened FuzzedData

  /** `range >> offset` for an offset in bytes; shifting by the word size has no meaning in C++. */
  function ShiftRight(range: nat, bytes: nat): nat
    requires bytes < 8
  {
    if bytes == 0 then range else ShiftRight(range / 256, bytes - 1)
  }

  /** `(result << CHAR_BIT) | next` in 64 bits. */
  function Append(result: nat, next: Byte): nat { result * 256 % WORD + next }

  lemma {:induction false} ShiftIsPositive(range: nat, bytes: nat)
    requires bytes < 8
    ensures ShiftRight(range, bytes) > 0 <==> bytes < ByteLength(range)
    decreases bytes
  {
    if bytes == 0 {
    } else {
      ShiftIsPositive(range / 256, bytes - 1);
    }
  }

  /** No result bit is shifted out while fewer than eight bytes have been pulled. */
  lemma AppendIsExact(taken: Input, next: Byte)
    requires |taken| < 8
    ensures Append(Value(taken), next) == Value([next] + taken)
  {
    ValueFits(taken);
    SevenBytes(|taken|);
    AppendFits(Value(taken), next);
    assert ([next] + taken)[1..] == taken;
  }

  lemma PulledByte(whole: Input, left: nat)
    requires left < |whole| <= left + 8
    ensures Append(Value(whole[left + 1..]), whole[left]) == Value(whole[left..])
  {
    AppendIsExact(whole[left + 1..], whole[left]);
    assert whole[left..] == [whole[left]] + whole[left + 1..];
  }

  lemma AppendFits(result: nat, next: Byte)
    requires 256 * result < WORD
    ensures Append(result, next) == next + 256 * result
  {
  }

  lemma {:induction false} SevenBytes(n: nat)
    requires n < 8
    ensures 256 * Pow256(n) <= WORD
    decreases 8 - n
  {
    Pow256Values();
    if n >= 7 {
    } else {
      SevenBytes(n + 1);
    }
  }

  class FuzzedDataProvider {
    const data: Input
    var dataPtr: nat
    var remainingBytes: nat

    ghost predicate Valid()
      reads this
    {
      dataPtr + remainingBytes <= |data|
    }

    /** The bytes that are left. */
    ghost function Rest(): Input
      requires Valid()
      reads this
    {
      data[dataPtr..dataPtr + remainingBytes]
    }

    constructor (data: Input)
      ensures Valid() && Rest() == data && this.data == data
    {
      this.data, this.dataPtr, this.remainingBytes := data, 0, |data|;
    }

    /** `ok` is false where the code aborts. */
    method Advance(numBytes: nat) returns (ok: bool)
      requires Valid()
      modifies this`dataPtr, this`remainingBytes
      ensures Valid() && (ok <==> numBytes <= |old(Rest())|)
      ensures ok ==> Rest() == old(Rest())[numBytes..] && dataPtr == old(dataPtr) + numBytes
    {
      if numBytes > remainingBytes { return false; }
      dataPtr := dataPtr + numBytes;
      remainingBytes := remainingBytes - numBytes;
      return true;
    }

    /** ConsumeBytes, ConsumeBytesAsString and ConsumeData. */
    method ConsumeBytes(numBytes: nat) returns (result: Input)
      requires Valid()
      modifies this`dataPtr, this`remainingBytes
      ensures Valid() && (result, Rest()) == TakeBytes(old(Rest()), numBytes)
    {
      var n := Min(numBytes, remainingBytes);
      result := data[dataPtr..dataPtr + n];
      assert result == Rest()[..n];
      var ok := Advance(n);
    }

    method ConsumeRandomLengthString(maxLength: nat) returns (result: seq<int>)
      requires Valid()
      modifies this`dataPtr, this`remainingBytes
      ensures Valid() && (result, Rest()) == TakeString(old(Rest()), maxLength)
    {
      result := [];
      var i := 0;
      assert [] + TakeString(Rest(), maxLength).0 == TakeString(Rest(), maxLength).0;
      while i < maxLength && remainingBytes != 0
        invariant Valid() && i <= maxLength
        invariant var t := TakeString(Rest(), maxLength - i); TakeString(old(Rest()), maxLength) == (result + t.0, t.1)
      {
        ghost var before := Rest();
        var next := ToChar(data[dataPtr]);
        var ok := Advance(1);
        if next == BACKSLASH && remainingBytes != 0 {
          next := ToChar(data[dataPtr]);
          ok := Advance(1);
          assert Rest() == before[2..];
          if next != BACKSLASH {
            assert result + [] == result;
            return;
          }
        }
        StringStep(before, Rest(), next, maxLength - i, result);
        result := result + [next];
        i := i + 1;
      }
      assert result + [] == result;
    }

    /** The loop of ConsumeIntegralInRange for a type of `size` bytes. */
    method PullBytes(size: nat, range: nat) returns (result: nat)
      requires Valid() && ByteLength(range) <= size <= 8
      modifies this`remainingBytes
      ensures Valid() && |Rest()| == |old(Rest())| - Min(ByteLength(range), |old(Rest())|)
      ensures Rest() == old(Rest())[..|Rest()|] && result == Value(old(Rest())[|Rest()|..])
    {
      ghost var whole := Rest();
      var bytes := 0;
      result := 0;
      while bytes < size && ShiftRight(range, bytes) > 0 && remainingBytes != 0
        invariant Valid() && |Rest()| == |whole| - bytes && bytes <= ByteLength(range)
        invariant Rest() == whole[..|Rest()|] && result == Value(whole[|Rest()|..])
        decreases remainingBytes
      {
        ShiftIsPositive(range, bytes);
        PulledByte(whole, |Rest()| - 1);
        remainingBytes := remainingBytes - 1;
        result := Append(result, data[dataPtr + remainingBytes]);
        bytes := bytes + 1;
      }
      if bytes < 8 { ShiftIsPositive(range, bytes); }
    }

    /** None where the code aborts: exactly when `min` is above `max`. */
    method ConsumeIntegralInRange(t: IntType, min: int, max: int) returns (r: Option<int>)
      requires Valid() && t.Ok() && t.Has(min) && t.Has(max)
      modifies this`remainingBytes
      ensures Valid() && (r.None? <==> min > max)
      ensures r.None? ==> Rest() == old(Rest())
      ensures r.Some? ==> (r.value, Rest()) == TakeInt(old(Rest()), min, max)
    {
      if min > max { return None; }
      var range := Range(t, min, max);
      ghost var whole := Rest();
      var result := PullBytes(t.bytes, range);
      Reduced(t, min, max, whole, |Rest()|);
      return Some(Reduce(t, min, range, result));
    }

    method Consume(c: Call) returns (o: Output)
      requires Valid() && CallOk(c)
      modifies this`dataPtr, this`remainingBytes
      ensures Valid() && (o, Rest()) == Take(c, old(Rest()))
    {
      match c {
        case Bytes(n) => var r := ConsumeBytes(n); o := BytesOut(r);
        case String(max) => var r := ConsumeRandomLengthString(max); o := StringOut(r);
        case Int(t, low, high) => var r := ConsumeIntegralInRange(t, low, high); o := IntOut(r.value);
      }
    }

    /** Any script of calls. */
    method ConsumeAll(script: seq<Call>) returns (outs: seq<Output>)
      requires Valid() && ScriptOk(script)
      modifies this`dataPtr, this`remainingBytes
      ensures Valid() && (outs, Rest()) == Run(script, old(Rest()))
    {
      outs := [];
      ghost var expected := Run(script, Rest());
      assert script[0..] == script && [] + expected.0 == expected.0;
      for i := 0 to |script|
        invariant Valid() && ScriptOk(script[i..])
        invariant var rest := Run(script[i..], Rest()); (outs + rest.0, rest.1) == expected
      {
        RunStep(script, i, Rest(), outs);
        var o := Consume(script[i]);
        outs := outs + [o];
      }
      assert outs + [] == outs;
    }
  }

  lemma RunStep(script: seq<Call>, i: nat, data: Input, outs: seq<Output>)
    requires ScriptOk(script) && i < |script|
    ensures CallOk(script[i]) && ScriptOk(script[i..]) && ScriptOk(script[i + 1..])
    ensures var first := Take(script[i], data);
            var rest := Run(script[i + 1..], first.1);
            (outs + Run(script[i..], data).0, Run(script[i..], data).1) == ((outs + [first.0]) + rest.0, rest.1)
  {
    assert script[i..][1..] == script[i + 1..];
    var first := Take(script[i], data).0;
    var rest := Run(script[i + 1..], Take(script[i], data).1).0;
    assert outs + ([first] + rest) == (outs + [first]) + rest;
  }

  /** `static_cast<uint64_t>(max) - min` */
  function Range(t: IntType, min: int, max: int): (range: nat)
    requires t.Ok() && t.Has(min) && t.Has(max) && min <= max
    ensures range == max - min && ByteLength(range) <= t.bytes
  {
    RangeIsExact(t, min, max);
    (max % WORD - min) % WORD
  }

  /** The reduction into the range and the final cast. */
  function Reduce(t: IntType, min: int, range: nat, raw: nat): int
    requires t.Ok()
  {
    Cast(t, (min + (if range != WORD - 1 then raw % (range + 1) else raw)) % WORD)
  }

  lemma Reduced(t: IntType, min: int, max: int, whole: Input, left: nat)
    requires t.Ok() && t.Has(min) && t.Has(max) && min <= max && ByteLength(max - min) <= t.bytes
    requires left == |whole| - Min(ByteLength(max - min), |whole|)
    ensures (Reduce(t, min, max - min, Value(whole[left..])), whole[..left]) == TakeInt(whole, min, max)
  {
    ReducedValue(t, min, max - min, whole[left..]);
  }

  lemma ReducedValue(t: IntType, min: int, range: nat, taken: Input)
    requires t.Ok() && t.Has(min) && t.Has(min + range) && |taken| <= t.bytes
    ensures Reduce(t, min, range, Value(taken)) == min + Value(taken) % (range + 1)
  {
    ReducedResult(t, min, min + range, taken);
  }

  /** The unsigned subtraction gives the size of the range, which has no more bytes than the type. */
  lemma RangeIsExact(t: IntType, min: int, max: int)
    requires t.Ok() && t.Has(min) && t.Has(max) && min <= max
    ensures (max % WORD - min) % WORD == max - min && ByteLength(max - min) <= t.bytes
  {
    Halves(t);
    var q := max / WORD;
    assert max % WORD - min == (max - min) + (-q) * WORD;
    ModuloAddition(max - min, -q, WORD);
    Remainder(max - min, WORD);
    ByteLengthExact(max - min, t.bytes);
  }

  /** Reduction and the final cast give a value of the range, also where `range + 1` would wrap around. */
  lemma ReducedResult(t: IntType, min: int, max: int, taken: Input)
    requires t.Ok() && t.Has(min) && t.Has(max) && min <= max && |taken| <= t.bytes
    ensures var raw, range := Value(taken), max - min;
            var result := if range != WORD - 1 then raw % (range + 1) else raw;
            Cast(t, (min + result) % WORD) == min + raw % (range + 1)
  {
    var raw, range := Value(taken), max - min;
    ValueFits(taken);
    if |taken| > 0 { SevenBytes(|taken| - 1); }
    Remainder(raw, range + 1);
    var x := min + raw % (range + 1);
    CastWrapped(t, x);
  }

  lemma CastWrapped(t: IntType, x: int)
    requires t.Ok() && t.Has(x)
    ensures Cast(t, x % WORD) == x
  {
    Halves(t);
    var k := WORD / t.Modulus();
    assert WORD == k * t.Modulus();
    var q := x / WORD;
    assert x % WORD == x - q * WORD;
    assert q * WORD == q * k * t.Modulus();
    CastModulo(t, x, -(q * k));
    assert x + -(q * k) * t.Modulus() == x % WORD;
    CastFits(t, x);
  }

  lemma StringStep(before: Input, rest: Input, next: int, max: nat, result: seq<int>)
    requires before != [] && max > 0
    requires if ToChar(before[0]) == BACKSLASH && |before| > 1 then
               next == ToChar(before[1]) == BACKSLASH && rest == before[2..]
             else next == ToChar(before[0]) && rest == before[1..]
    ensures var t := TakeString(rest, max - 1); TakeString(before, max) == ([next] + t.0, t.1)
    ensures result + TakeString(before, max).0 == (result + [next]) + TakeString(rest, max - 1).0
  {
  }
}
