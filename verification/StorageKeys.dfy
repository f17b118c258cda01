/** Storage keys: from arguments to the key, and from the key back to what it tells of them. */
module StorageKeys {
  import opened Basics
  import opened Hex

  datatype Hasher =
    | Identity | Twox64Concat | Blake2128Concat
    | Blake2128 | Blake2256 | Twox128 | Twox256
    | OtherHasher

  /** How many bytes come before the encoded argument, or if negative how long the hash is. */
  function HashLength(h: Hasher): Option<int> {
    match h
    case Identity => Some(0)
    case Twox64Concat => Some(8)
    case Blake2128Concat => Some(16)
    case Blake2128 => Some(-16)
    case Blake2256 => Some(-32)
    case Twox128 => Some(-16)
    case Twox256 => Some(-32)
    case OtherHasher => None
  }

  predicate IsOpaque(h: Hasher) {
    HashLength(h).Some? && HashLength(h).value < 0
  }

  type Bytes = seq<Byte>

  /** The hash functions; all that matters is how long the hashes are. */
  datatype Hashes = Hashes(twox64: Bytes -> Bytes, blake2_128: Bytes -> Bytes, blake2_256: Bytes -> Bytes,
                           twox128: Bytes -> Bytes, twox256: Bytes -> Bytes)
  {
    ghost predicate Sound() {
      forall x: Bytes :: |twox64(x)| == 8 && |blake2_128(x)| == 16 && |blake2_256(x)| == 32 && |twox128(x)| == 16
          && |twox256(x)| == 32
    }

    function Apply(h: Hasher, x: Bytes): Bytes {
      match h
      case Identity => x
      case Twox64Concat => twox64(x) + x
      case Blake2128Concat => blake2_128(x) + x
      case Blake2128 => blake2_128(x)
      case Blake2256 => blake2_256(x)
      case Twox128 => twox128(x)
      case Twox256 => twox256(x)
      case OtherHasher => x
    }
  }

  /** The hash function that a hasher is named after. */
  function HashOf(hashes: Hashes, h: Hasher): Bytes -> Bytes {
    if h.Identity? || h.OtherHasher? then (x: Bytes) => []
    else if h.Twox64Concat? then hashes.twox64
    else if h.Blake2128? || h.Blake2128Concat? then hashes.blake2_128
    else if h.Blake2256? then hashes.blake2_256
    else if h.Twox128? then hashes.twox128
    else hashes.twox256
  }

  /** What is written for an argument: its hash, as long as the table says, and then the argument if it shows. */
  lemma HashedArgument(hashes: Hashes, h: Hasher, x: Bytes)
    requires hashes.Sound() && !h.OtherHasher?
    ensures HashLength(h).Some?
    ensures var n: nat := |HashOf(hashes, h)(x)|;
      && n == (if IsOpaque(h) then -HashLength(h).value else HashLength(h).value)
      && n <= |hashes.Apply(h, x)|
      && hashes.Apply(h, x)[..n] == HashOf(hashes, h)(x)
      && hashes.Apply(h, x)[n..] == (if h in {Blake2128, Blake2256, Twox128, Twox256} then [] else x)
  {
  }

  /** A codec of arguments; `V` is any kind of value. */
  datatype Codec<!V> = Codec(enc: V -> Bytes, dec: Bytes -> V)

  datatype Encoder<!V> = Encoder(codec: Codec<V>, hasher: Hasher)

  /** Decoding reads the value back, whatever follows it. */
  ghost predicate Delimits<V>(codec: Codec<V>, v: V) {
    forall rest: Bytes :: codec.dec(codec.enc(v) + rest) == v
  }

  /** What a key tells of an argument: the argument, or the text of its hash. */
  datatype Part<V> = Value(v: V) | Hash(text: string)

  datatype Result<T> = Ok(value: T) | WrongKey | UnknownHasher

  ghost predicate Known<V(!new)>(encoders: seq<Encoder<V>>, args: seq<V>) {
    && |encoders| == |args|
    && forall i :: 0 <= i < |args| ==>
       HashLength(encoders[i].hasher).Some? && (!IsOpaque(encoders[i].hasher) ==> Delimits(encoders[i].codec, args[i]))
  }

  /** The hashed arguments, one after the other; the last ones may be left out. */
  function ArgsKey<V>(hashes: Hashes, encoders: seq<Encoder<V>>, args: seq<V>): Bytes
    requires |args| <= |encoders|
  {
    if args == [] then []
    else
      var n := |args| - 1;
      ArgsKey(hashes, encoders[..n], args[..n]) + hashes.Apply(encoders[n].hasher, encoders[n].codec.enc(args[n]))
  }

  function PartOf<V>(hashes: Hashes, e: Encoder<V>, v: V): Part<V> {
    if IsOpaque(e.hasher) then Hash("0x" + HexDigits(hashes.Apply(e.hasher, e.codec.enc(v)))) else Value(v)
  }

  function KeyText<V>(hashes: Hashes, prefix: Bytes, encoders: seq<Encoder<V>>, args: seq<V>): string
    requires |args| <= |encoders|
  {
    "0x" + HexDigits(prefix + ArgsKey(hashes, encoders, args))
  }

  lemma UnusedEncoders<V>(hashes: Hashes, encoders: seq<Encoder<V>>, args: seq<V>)
    requires |args| <= |encoders|
    ensures ArgsKey(hashes, encoders[..|args|], args) == ArgsKey(hashes, encoders, args)
  {
    if args != [] {
      var n := |args| - 1;
      assert encoders[..|args|][..n] == encoders[..n];
    }
  }

  class Storage<V(!new)> {
    const hashes: Hashes
    const palletItemEncoded: Bytes   // the hashes of the pallet's and the entry's name
    const encoders: seq<Encoder<V>>

    constructor (hashes: Hashes, pallet: Bytes, name: Bytes, encoders: seq<Encoder<V>>)
      ensures this.hashes == hashes && this.encoders == encoders
              && palletItemEncoded == hashes.twox128(pallet) + hashes.twox128(name)
    {
      this.hashes, this.encoders := hashes, encoders;
      palletItemEncoded := hashes.twox128(pallet) + hashes.twox128(name);
    }

    /** The key for the arguments; fails if there are more of them than encoders. */
    method Enc(args: seq<V>) returns (key: Option<string>)
      ensures key == if |args| <= |encoders| then Some(KeyText(hashes, palletItemEncoded, encoders, args)) else None
    {
      if |args| > |encoders| {
        return None;
      }
      var parts: Bytes := [];
      for i := 0 to |args|
        invariant parts == ArgsKey(hashes, encoders[..i], args[..i])
      {
        assert encoders[..i + 1][..i] == encoders[..i] && args[..i + 1][..i] == args[..i];
        parts := parts + hashes.Apply(encoders[i].hasher, encoders[i].codec.enc(args[i]));
      }
      assert args[..|args|] == args;
      UnusedEncoders(hashes, encoders, args);
      var text := ToHex(palletItemEncoded + parts);
      key := Some(text);
    }

    /** Takes a key apart. */
    method Dec(key: string) returns (r: Result<seq<Part<V>>>)
      ensures r == DecSpec(palletItemEncoded, encoders, key)
    {
      var prefix := ToHex(palletItemEncoded);
      if !(prefix <= key) {
        return WrongKey;
      }
      if |encoders| == 0 {
        return Ok([]);
      }
      var argsKey := FromHex(key[|prefix|..]);
      r := DecParts(argsKey);
    }

    method DecParts(argsKey: Bytes) returns (r: Result<seq<Part<V>>>)
      ensures r == Cut(encoders, argsKey)
    {
      hide HexDigits, Cut, Drop, Take, Prepend, HashLength;
      var cur := 0;
      var result := [];
      var i := 0;
      assert encoders[0..] == encoders;
      CutBegin(encoders, argsKey);
      while i < |encoders|
        invariant i <= |encoders| && 0 <= cur
        invariant Prepend(result, Cut(encoders[i..], Drop(argsKey, cur))) == Cut(encoders, argsKey)
      {
        var codec, hBytes := encoders[i].codec, HashLength(encoders[i].hasher);
        ghost var left := encoders[i..];
        assert left[1..] == encoders[i + 1..] && left[0] == encoders[i];
        if hBytes.None? {
          CutUnknown(left, Drop(argsKey, cur), result);
          return UnknownHasher;
        }
        if hBytes.value < 0 {
          var opaqueBytes := -hBytes.value;
          CutHash(left, Drop(argsKey, cur), result);
          DropTwice(argsKey, cur, opaqueBytes);
          var text := ToHex(Take(Drop(argsKey, cur), opaqueBytes));
          result := result + [Hash(text)];
          cur := cur + opaqueBytes;
        } else {
          CutValue(left, Drop(argsKey, cur), result);
          DropTwice(argsKey, cur, hBytes.value);
          cur := cur + hBytes.value;
          var v := codec.dec(Drop(argsKey, cur));
          result := result + [Value(v)];
          DropTwice(argsKey, cur, |codec.enc(v)|);
          cur := cur + |codec.enc(v)|;
        }
        i := i + 1;
      }
      assert encoders[|encoders|..] == [];
      CutEnd(Drop(argsKey, cur), result);
      r := Ok(result);
    }
  }

  lemma CutBegin<V>(encoders: seq<Encoder<V>>, key: Bytes)
    ensures Prepend([], Cut(encoders, Drop(key, 0))) == Cut(encoders, key)
  {
    hide Cut;
    var r := Cut(encoders, key);
    assert Drop(key, 0) == key;
    if r.Ok? {
      assert [] + r.value == r.value;
    }
  }

  /** One part more is cut off. */
  lemma CutHash<V>(encoders: seq<Encoder<V>>, key: Bytes, result: seq<Part<V>>)
    requires encoders != [] && IsOpaque(encoders[0].hasher)
    ensures var n := -HashLength(encoders[0].hasher).value;
            Prepend(result, Cut(encoders, key))
            == Prepend(result + [Hash("0x" + HexDigits(Take(key, n)))], Cut(encoders[1..], Drop(key, n)))
  {
    hide HexDigits;
    var n := -HashLength(encoders[0].hasher).value;
    PrependTwice(result, [Hash("0x" + HexDigits(Take(key, n)))], Cut(encoders[1..], Drop(key, n)));
  }

  lemma CutValue<V>(encoders: seq<Encoder<V>>, key: Bytes, result: seq<Part<V>>)
    requires encoders != [] && HashLength(encoders[0].hasher).Some? && !IsOpaque(encoders[0].hasher)
    ensures var rest := Drop(key, HashLength(encoders[0].hasher).value);
            var v := encoders[0].codec.dec(rest);
            Prepend(result, Cut(encoders, key))
            == Prepend(result + [Value(v)], Cut(encoders[1..], Drop(rest, |encoders[0].codec.enc(v)|)))
  {
    hide HexDigits;
    var rest := Drop(key, HashLength(encoders[0].hasher).value);
    var v := encoders[0].codec.dec(rest);
    PrependTwice(result, [Value(v)], Cut(encoders[1..], Drop(rest, |encoders[0].codec.enc(v)|)));
  }

  lemma CutUnknown<V>(encoders: seq<Encoder<V>>, key: Bytes, result: seq<Part<V>>)
    requires encoders != [] && HashLength(encoders[0].hasher).None?
    ensures Prepend(result, Cut(encoders, key)) == UnknownHasher
  {
  }

  lemma CutEnd<V>(key: Bytes, result: seq<Part<V>>)
    ensures Prepend(result, Cut([], key)) == Ok(result)
  {
    assert result + [] == result;
  }

  lemma PrependTwice<T>(xs: seq<T>, ys: seq<T>, r: Result<seq<T>>)
    ensures Prepend(xs, Prepend(ys, r)) == Prepend(xs + ys, r)
  {
    if r.Ok? {
      assert xs + (ys + r.value) == xs + ys + r.value;
    }
  }

  /** `slice` from a place that may be past the end. */
  function Drop(bytes: Bytes, n: nat): Bytes {
    if n <= |bytes| then bytes[n..] else []
  }

  function Take(bytes: Bytes, n: nat): Bytes {
    if n <= |bytes| then bytes[..n] else bytes
  }

  lemma DropTwice(bytes: Bytes, m: nat, n: nat)
    ensures Drop(Drop(bytes, m), n) == Drop(bytes, m + n)
  {
  }

  function Prepend<T>(xs: seq<T>, r: Result<seq<T>>): Result<seq<T>> {
    if r.Ok? then Ok(xs + r.value) else r
  }

  /** Takes the parts off the front, one for every encoder. */
  function Cut<V>(encoders: seq<Encoder<V>>, key: Bytes): Result<seq<Part<V>>> {
    if encoders == [] then Ok([])
    else
      var codec, hBytes := encoders[0].codec, HashLength(encoders[0].hasher);
      if hBytes.None? then UnknownHasher
      else if hBytes.value < 0 then
        Prepend([Hash("0x" + HexDigits(Take(key, -hBytes.value)))], Cut(encoders[1..], Drop(key, -hBytes.value)))
      else
        var v := codec.dec(Drop(key, hBytes.value));
        Prepend([Value(v)], Cut(encoders[1..], Drop(Drop(key, hBytes.value), |codec.enc(v)|)))
  }

  function DecSpec<V>(prefix: Bytes, encoders: seq<Encoder<V>>, key: string): Result<seq<Part<V>>> {
    var text := "0x" + HexDigits(prefix);
    if !(text <= key) then WrongKey
    else if encoders == [] then Ok([])
    else Cut(encoders, Unhex(key[|text|..]))
  }

  function PartsOf<V>(hashes: Hashes, encoders: seq<Encoder<V>>, args: seq<V>): (r: seq<Part<V>>)
    requires |encoders| == |args|
    ensures |r| == |args|
  {
    seq(|args|, i requires 0 <= i < |args| => PartOf(hashes, encoders[i], args[i]))
  }

  lemma {:induction false} ArgsKeyFirst<V>(hashes: Hashes, encoders: seq<Encoder<V>>, args: seq<V>)
    requires |encoders| == |args| && args != []
    ensures ArgsKey(hashes, encoders, args)
            == hashes.Apply(encoders[0].hasher, encoders[0].codec.enc(args[0]))
                + ArgsKey(hashes, encoders[1..], args[1..])
  {
    var n := |args| - 1;
    if n > 0 {
      ArgsKeyFirst(hashes, encoders[..n], args[..n]);
      assert encoders[..n][1..] == encoders[1..][..n - 1] && args[..n][1..] == args[1..][..n - 1];
    }
  }

  /** The part that is first cut off, and what is left. */
  lemma FirstPart<V(!new)>(hashes: Hashes, e: Encoder<V>, v: V, rest: Bytes)
    requires hashes.Sound() && HashLength(e.hasher).Some? && (!IsOpaque(e.hasher) ==> Delimits(e.codec, v))
    ensures var key := hashes.Apply(e.hasher, e.codec.enc(v)) + rest;
            var h := HashLength(e.hasher).value;
            if h < 0 then
              Hash("0x" + HexDigits(Take(key, -h))) == PartOf(hashes, e, v) && Drop(key, -h) == rest
            else
              && e.codec.dec(Drop(key, h)) == v && PartOf(hashes, e, v) == Value(v)
              && Drop(Drop(key, h), |e.codec.enc(v)|) == rest
  {
    hide HexDigits;
    var enc := e.codec.enc(v);
    var hashed := hashes.Apply(e.hasher, enc);
    var h := HashLength(e.hasher).value;
    if h < 0 {
      assert |hashed| == -h;
      assert Take(hashed + rest, -h) == hashed && Drop(hashed + rest, -h) == rest;
    } else {
      assert |hashed| == h + |enc| && hashed[h..] == enc;
      assert Drop(hashed + rest, h) == enc + rest;
      assert Drop(enc + rest, |enc|) == rest;
    }
  }

  lemma NothingCut<V>(encoders: seq<Encoder<V>>, key: Bytes)
    ensures encoders == [] ==> Cut(encoders, key) == Ok([])
  {
  }

  lemma CutFirst<V(!new)>(hashes: Hashes, encoders: seq<Encoder<V>>, v: V, rest: Bytes)
    requires encoders != [] && hashes.Sound()
    requires var e := encoders[0]; HashLength(e.hasher).Some? && (!IsOpaque(e.hasher) ==> Delimits(e.codec, v))
    ensures Cut(encoders, hashes.Apply(encoders[0].hasher, encoders[0].codec.enc(v)) + rest)
            == Prepend([PartOf(hashes, encoders[0], v)], Cut(encoders[1..], rest))
  {
    FirstPart(hashes, encoders[0], v, rest);
    hide HexDigits, Take, Drop, Delimits, hashes.Apply;
  }

  /** What the hashed arguments tell of them, whatever comes after. */
  lemma {:induction false} CutOfArgs<V(!new)>(hashes: Hashes, encoders: seq<Encoder<V>>, args: seq<V>, more: Bytes)
    requires hashes.Sound() && Known(encoders, args)
    ensures Cut(encoders, ArgsKey(hashes, encoders, args) + more) == Ok(PartsOf(hashes, encoders, args))
  {
    hide HexDigits, Cut, hashes.Apply, PartOf, hashes.Sound;
    if args == [] {
      NothingCut(encoders, more);
      assert [] + more == more;
    } else {
      var first := hashes.Apply(encoders[0].hasher, encoders[0].codec.enc(args[0]));
      var rest := ArgsKey(hashes, encoders[1..], args[1..]);
      ArgsKeyFirst(hashes, encoders, args);
      Associate(first, rest, more);
      CutFirst(hashes, encoders, args[0], rest + more);
      CutOfArgs(hashes, encoders[1..], args[1..], more);
      assert PartsOf(hashes, encoders, args)
             == [PartOf(hashes, encoders[0], args[0])] + PartsOf(hashes, encoders[1..], args[1..]);
    }
  }

  lemma {:induction false} HexOfBoth(a: Bytes, b: Bytes)
    ensures HexDigits(a + b) == HexDigits(a) + HexDigits(b)
  {
    if b == [] {
      assert a + b == a;
    } else {
      var n := |b| - 1;
      HexOfBoth(a, b[..n]);
      HexOfMore(a + b[..n], b[n]);
      HexOfMore(b[..n], b[n]);
      hide HexDigits;
      var last := HexDigits([b[n]]);
      assert a + b == a + b[..n] + [b[n]];
      assert b == b[..n] + [b[n]];
      Associate(HexDigits(a), HexDigits(b[..n]), last);
    }
  }

  lemma HexOfMore(a: Bytes, x: Byte)
    ensures HexDigits(a + [x]) == HexDigits(a) + HexDigits([x])
  {
    assert (a + [x])[..|a|] == a;
    assert HexDigits([x]) == [HexChar(x / 16), HexChar(x % 16)];
  }

  lemma Associate<T>(a: seq<T>, b: seq<T>, c: seq<T>)
    ensures (a + b) + c == a + (b + c)
  {
  }

  /**
   * Decoding an encoded key gives every argument under a transparent hasher, and of every other one
   * the text of its hash.
   */
  lemma KeyRoundTrip<V(!new)>(hashes: Hashes, prefix: Bytes, encoders: seq<Encoder<V>>, args: seq<V>)
    requires hashes.Sound() && Known(encoders, args)
    ensures DecSpec(prefix, encoders, KeyText(hashes, prefix, encoders, args)) == Ok(PartsOf(hashes, encoders, args))
  {
    var argsKey := ArgsKey(hashes, encoders, args);
    KeyWithoutPrefix(prefix, encoders, argsKey);
    CutOfArgs(hashes, encoders, args, []);
    assert KeyText(hashes, prefix, encoders, args) == "0x" + HexDigits(prefix + argsKey);
    hide *;
    assert argsKey + [] == argsKey;
  }

  /** Decoding a key cuts up what stands behind the prefix. */
  lemma KeyWithoutPrefix<V>(prefix: Bytes, encoders: seq<Encoder<V>>, argsKey: Bytes)
    ensures DecSpec(prefix, encoders, "0x" + HexDigits(prefix + argsKey)) == Cut(encoders, argsKey)
  {
    HexOfBoth(prefix, argsKey);
    HexRoundTrip(argsKey);
    NothingCut(encoders, argsKey);
    BehindText("0x" + HexDigits(prefix), HexDigits(argsKey));
    hide HexDigits, Unhex, Cut;
    assert "0x" + HexDigits(prefix + argsKey) == ("0x" + HexDigits(prefix)) + HexDigits(argsKey);
  }

  lemma BehindText(a: string, b: string)
    ensures a <= a + b && (a + b)[|a|..] == b
  {
  }

  // ------------------------------------------------------------ keys of some arguments

  /** The key of the first arguments, followed by something, is the key of all of them. */
  lemma {:induction false} ArgsKeyPrefix<V>(hashes: Hashes, encoders: seq<Encoder<V>>, args: seq<V>, k: nat)
    requires k <= |args| <= |encoders|
    ensures ArgsKey(hashes, encoders, args[..k]) <= ArgsKey(hashes, encoders, args)
  {
    var n := |args| - 1;
    if k == |args| {
      assert args[..k] == args;
    } else {
      assert ArgsKey(hashes, encoders[..n], args[..n]) <= ArgsKey(hashes, encoders, args);
      ArgsKeyPrefix(hashes, encoders[..n], args[..n], k);
      UnusedEncoders(hashes, encoders[..n], args[..k]);
      UnusedEncoders(hashes, encoders, args[..k]);
      hide ArgsKey;
      assert args[..n][..k] == args[..k] && encoders[..n][..k] == encoders[..k];
    }
  }

  lemma HexOfPrefix(a: Bytes, b: Bytes)
    ensures HexDigits(a) <= HexDigits(b) <==> a <= b
  {
    hide HexDigits, Unhex;
    if a <= b {
      assert b == a + b[|a|..];
      HexOfBoth(a, b[|a|..]);
    } else if HexDigits(a) <= HexDigits(b) {
      HexSize(a);
      HexSize(b);
      var c := b[..|a|];
      assert b == c + b[|a|..];
      HexOfBoth(c, b[|a|..]);
      HexSize(c);
      assert HexDigits(c) == HexDigits(b)[..2 * |a|] == HexDigits(a);
      HexRoundTrip(a);
      HexRoundTrip(c);
    }
  }

  lemma HexSize(a: Bytes)
    ensures |HexDigits(a)| == 2 * |a|
  {
  }

  /**
   * A key made of the first arguments only is the beginning of exactly the keys with these first
   * arguments, provided that their hashers are transparent.
   */
  lemma PartialKeyIff<V(!new)>(hashes: Hashes, prefix: Bytes, encoders: seq<Encoder<V>>, some: seq<V>, args: seq<V>)
    requires hashes.Sound() && |some| <= |args| <= |encoders|
    requires Known(encoders[..|some|], some) && Known(encoders[..|some|], args[..|some|])
    requires forall i :: 0 <= i < |some| ==> !IsOpaque(encoders[i].hasher)
    ensures KeyText(hashes, prefix, encoders, some) <= KeyText(hashes, prefix, encoders, args)
            <==> some == args[..|some|]
  {
    var k := |some|;
    var a, b := ArgsKey(hashes, encoders, some), ArgsKey(hashes, encoders, args);
    HexOfPrefix(prefix + a, prefix + b);
    TextPrefix(HexDigits(prefix + a), HexDigits(prefix + b));
    BehindPrefix(prefix, a, b);
    ArgsKeyPrefix(hashes, encoders, args, k);
    hide HexDigits, ArgsKey, Known;
    if a <= b {
      SameFirstArgs(hashes, encoders, some, args);
    }
  }

  lemma TextPrefix(a: string, b: string)
    ensures "0x" + a <= "0x" + b <==> a <= b
  {
    if "0x" + a <= "0x" + b {
      assert forall i :: 0 <= i < |a| ==> ("0x" + a)[i + 2] == a[i] && ("0x" + b)[i + 2] == b[i];
    }
  }

  lemma BehindPrefix(p: Bytes, a: Bytes, b: Bytes)
    ensures p + a <= p + b <==> a <= b
  {
    if p + a <= p + b {
      assert forall i :: 0 <= i < |a| ==> (p + a)[|p| + i] == a[i] && (p + b)[|p| + i] == b[i];
    }
  }

  lemma SameFirstArgs<V(!new)>(hashes: Hashes, encoders: seq<Encoder<V>>, some: seq<V>, args: seq<V>)
    requires hashes.Sound() && |some| <= |args| <= |encoders|
    requires Known(encoders[..|some|], some) && Known(encoders[..|some|], args[..|some|])
    requires forall i :: 0 <= i < |some| ==> !IsOpaque(encoders[i].hasher)
    requires ArgsKey(hashes, encoders, some) <= ArgsKey(hashes, encoders, args)
    ensures some == args[..|some|]
  {
    var k := |some|;
    var x := ArgsKeySplit(hashes, encoders, some, some);
    var y := ArgsKeySplit(hashes, encoders, args[..k], args);
    hide ArgsKey, Known, hashes.Sound;
    var a, b := ArgsKey(hashes, encoders, some), ArgsKey(hashes, encoders, args);
    Longer(a, b);
    Associate(ArgsKey(hashes, encoders[..k], some), x, b[|a|..]);
    assert some[..k] == some;
    SameArgs(hashes, encoders[..k], some, args[..k], x + b[|a|..], y);
  }

  lemma Longer(a: Bytes, b: Bytes)
    requires a <= b
    ensures b == a + b[|a|..]
  {
  }

  lemma ArgsKeySplit<V>(hashes: Hashes, encoders: seq<Encoder<V>>, some: seq<V>, args: seq<V>) returns (x: Bytes)
    requires |some| <= |args| <= |encoders| && some == args[..|some|]
    ensures ArgsKey(hashes, encoders, args) == ArgsKey(hashes, encoders[..|some|], some) + x
  {
    ArgsKeyPrefix(hashes, encoders, args, |some|);
    UnusedEncoders(hashes, encoders, some);
    hide ArgsKey;
    x := ArgsKey(hashes, encoders, args)[|ArgsKey(hashes, encoders, some)|..];
  }

  lemma SameArgs<V(!new)>(hashes: Hashes, encoders: seq<Encoder<V>>, some: seq<V>, others: seq<V>, x: Bytes, y: Bytes)
    requires hashes.Sound() && Known(encoders, some) && Known(encoders, others)
    requires forall i :: 0 <= i < |encoders| ==> !IsOpaque(encoders[i].hasher)
    requires ArgsKey(hashes, encoders, some) + x == ArgsKey(hashes, encoders, others) + y
    ensures some == others
  {
    CutOfArgs(hashes, encoders, some, x);
    CutOfArgs(hashes, encoders, others, y);
    hide Cut, ArgsKey, hashes.Sound;
    forall i | 0 <= i < |some| ensures some[i] == others[i] {
      assert PartsOf(hashes, encoders, some)[i] == PartsOf(hashes, encoders, others)[i];
    }
  }
}
