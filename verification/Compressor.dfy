/** Compressing the descriptor tables: names become tokens, and equal trees are shared. */
module Compressor {
  import opened Basics

  /** item -> index of its type */
  type Items = map<string, nat>
  /** kind (storage, tx, ...) -> pallet -> items */
  type Table = map<string, map<string, Items>>

  datatype Tree = Own(items: Items) | Common(idx: nat)

  /** A table whose keys may be tokens and whose trees may be shared. */
  type Minified = map<string, map<string, Items>>
  type Shared = map<string, map<string, Tree>>

  // ------------------------------------------------------------------ numerals

  function Digit(d: nat): char
    requires d < 10
  {
    "0123456789"[d]
  }

  /** A number as it is written as a key. */
  function Digits(n: nat): (r: string)
    ensures r != [] && forall k :: 0 <= k < |r| ==> '0' <= r[k] <= '9'
  {
    if n < 10 then [Digit(n)] else Digits(n / 10) + [Digit(n % 10)]
  }

  lemma {:induction false} DigitsDiffer(m: nat, n: nat)
    requires Digits(m) == Digits(n)
    ensures m == n
  {
    var a, b := Digits(m), Digits(n);
    assert a[|a| - 1] == Digit(m % 10) && b[|b| - 1] == Digit(n % 10);
    assert m % 10 == n % 10;
    if m >= 10 && n >= 10 {
      assert a[..|a| - 1] == Digits(m / 10) && b[..|b| - 1] == Digits(n / 10);
      DigitsDiffer(m / 10, n / 10);
    } else {
      assert m < 10 <==> |a| == 1;
      assert n < 10 <==> |b| == 1;
    }
  }

  datatype Numeric = NaN | Index(n: nat) | OtherNumber

  /** What the language gives: reading numbers, the order of keys, sorting of keys, and inherited properties. */
  datatype Js = Js(
    number: string -> Numeric,
    keys: set<string> -> seq<string>,
    sort: set<string> -> seq<string>,
    inherited: map<string, string>)   // what every object inherits, as it reads when used as a key
  {
    ghost predicate Sound() {
      && (forall n: nat :: number(Digits(n)) == Index(n)) && number("undefined") == NaN
      && (forall s: set<string>, k: string :: k in keys(s) <==> k in s)
      && (forall s: set<string>, i: nat, j: nat :: i < j < |keys(s)| ==> keys(s)[i] != keys(s)[j])
      && (forall s: set<string>, k: string :: k in sort(s) <==> k in s)
      && (forall k :: k in inherited ==> number(k) == NaN && inherited[k] !in inherited) && "undefined" !in inherited
    }
  }

  /** The keys of an object are listed once each. */
  lemma KeysOf(js: Js, s: set<string>)
    requires js.Sound()
    ensures forall k :: k in js.keys(s) <==> k in s
    ensures forall i, j :: 0 <= i < j < |js.keys(s)| ==> js.keys(s)[i] != js.keys(s)[j]
  {
  }

  /**
   * The name is a word, or occurs often enough to get a token; names that every object has are counted
   * as NaN, here 0, and get none.
   */
  predicate Survives(js: Js, usages: string -> nat, name: string) {
    usages(name) > 1 || (js.number(name) == NaN && name !in js.inherited)
  }

  /** The name has no punctuation of the tree keys. */
  predicate IsPlain(s: string) {
    '[' !in s && ':' !in s && ']' !in s
  }

  // --------------------------------------------------------------------- tokens

  datatype Code = Code(tokens: seq<string>, index: map<string, nat>)
  {
    ghost predicate Valid() {
      && (forall k :: k in index ==> index[k] < |tokens| && tokens[index[k]] == k)
      && (forall i :: 0 <= i < |tokens| ==> tokens[i] in index && index[tokens[i]] == i)
    }
  }

  function Encode(js: Js, code: Code, name: string): string {
    if name in code.index then Digits(code.index[name])
    else if name in js.inherited then js.inherited[name]
    else name
  }

  function DecodeKey(js: Js, tokens: seq<string>, key: string): string {
    match js.number(key)
    case NaN => key
    case Index(i) => if i < |tokens| then tokens[i] else "undefined"
    case OtherNumber => "undefined"
  }

  /** The name has a token, or is neither read as one nor taken to have one. */
  predicate Sticks(js: Js, code: Code, name: string) {
    name in code.index || (js.number(name) == NaN && name !in js.inherited)
  }

  /** A name comes back if and only if it sticks. */
  lemma KeyRoundTripIff(js: Js, code: Code, name: string)
    requires js.Sound() && code.Valid()
    ensures DecodeKey(js, code.tokens, Encode(js, code, name)) == name <==> Sticks(js, code, name)
  {
    if name in code.index {
      assert js.number(Digits(code.index[name])) == Index(code.index[name]);
    }
  }

  lemma EncodedPlain(js: Js, code: Code, name: string)
    requires (IsPlain(name) && name !in js.inherited) || name in code.index
    ensures IsPlain(Encode(js, code, name))
  {
  }

  /** The decoder's `replaceTokens` on one object: of keys that coincide the last one counts. */
  function FromKeys<V>(js: Js, tokens: seq<string>, obj: map<string, V>, keys: seq<string>): map<string, V>
    requires forall k :: k in keys ==> k in obj
  {
    if keys == [] then map[]
    else
      var last := keys[|keys| - 1];
      FromKeys(js, tokens, obj, keys[..|keys| - 1])[DecodeKey(js, tokens, last) := obj[last]]
  }

  function ReplaceKeys<V>(js: Js, tokens: seq<string>, obj: map<string, V>): map<string, V>
    requires js.Sound()
  {
    FromKeys(js, tokens, obj, js.keys(obj.Keys))
  }

  /** `obj` has the keys of `m` encoded, one for one. */
  ghost predicate KeysEncoded<V, W>(js: Js, code: Code, m: map<string, V>, obj: map<string, W>) {
    && (forall k :: k in m ==> Sticks(js, code, k) && Encode(js, code, k) in obj)
    && (forall s :: s in obj ==>
        DecodeKey(js, code.tokens, s) in m && Encode(js, code, DecodeKey(js, code.tokens, s)) == s)
  }

  lemma {:induction false} FromKeysAt<V, W>(js: Js, code: Code, m: map<string, V>, obj: map<string, W>,
                                            keys: seq<string>, name: string)
    requires js.Sound() && code.Valid() && KeysEncoded(js, code, m, obj) && forall k :: k in keys ==> k in obj
    ensures var r := FromKeys(js, code.tokens, obj, keys);
            && (name in r <==> name in m && Encode(js, code, name) in keys)
            && (name in r ==> r[name] == obj[Encode(js, code, name)])
  {
    if keys != [] {
      var n := |keys| - 1;
      FromKeysAt(js, code, m, obj, keys[..n], name);
      assert keys[n] in obj;
      assert keys == keys[..n] + [keys[n]];
      if name in m {
        KeyRoundTripIff(js, code, name);
      }
    }
  }

  lemma ReplaceKeysIs<V, W>(js: Js, code: Code, m: map<string, V>, obj: map<string, W>)
    requires js.Sound() && code.Valid() && KeysEncoded(js, code, m, obj)
    ensures var r := ReplaceKeys(js, code.tokens, obj);
            r.Keys == m.Keys && forall k :: k in m ==> r[k] == obj[Encode(js, code, k)]
  {
    KeysOf(js, obj.Keys);
    var r := ReplaceKeys(js, code.tokens, obj);
    forall name ensures name in r <==> name in m
      ensures name in r ==> r[name] == obj[Encode(js, code, name)]
    {
      FromKeysAt(js, code, m, obj, js.keys(obj.Keys), name);
      if name in m {
        EncodedIn(js, code, m, obj, name);
      }
    }
    hide *;
  }

  // ---------------------------------------------------------------- growing codes

  /** The codes met while compressing: only names that occur more than once get tokens. */
  ghost predicate Extends(code: Code, later: Code, usages: string -> nat) {
    && (forall k :: k in code.index ==> k in later.index && later.index[k] == code.index[k])
    && (forall k :: k in later.index ==> usages(k) > 1)
  }

  ghost predicate AllHandled<V>(code: Code, usages: string -> nat, m: map<string, V>) {
    forall k :: k in m && usages(k) > 1 ==> k in code.index
  }

  lemma SameLater<V>(js: Js, code: Code, later: Code, usages: string -> nat, m: map<string, V>)
    requires Extends(code, later, usages) && AllHandled(code, usages, m)
    ensures AllHandled(later, usages, m) && forall k :: k in m ==> Encode(js, later, k) == Encode(js, code, k)
  {
  }

  lemma KeysLater<V, W>(js: Js, code: Code, later: Code, usages: string -> nat, m: map<string, V>, obj: map<string, W>)
    requires js.Sound() && code.Valid() && later.Valid() && Extends(code, later, usages)
    requires KeysEncoded(js, code, m, obj) && AllHandled(code, usages, m)
    ensures KeysEncoded(js, later, m, obj) && AllHandled(later, usages, m)
  {
    SameLater(js, code, later, usages, m);
    forall s | s in obj
      ensures DecodeKey(js, later.tokens, s) in m && Encode(js, later, DecodeKey(js, later.tokens, s)) == s
    {
      var k := DecodeKey(js, code.tokens, s);
      KeyRoundTripIff(js, later, k);
    }
  }

  lemma KeyAdded<V, W>(js: Js, code: Code, m: map<string, V>, obj: map<string, W>, k: string, v: V, w: W)
    requires js.Sound() && code.Valid() && KeysEncoded(js, code, m, obj) && Sticks(js, code, k)
    ensures KeysEncoded(js, code, m[k := v], obj[Encode(js, code, k) := w])
    ensures forall other :: other in m && other != k ==> Encode(js, code, other) != Encode(js, code, k)
  {
    KeyRoundTripIff(js, code, k);
    forall other | other in m && other != k ensures Encode(js, code, other) != Encode(js, code, k) {
      KeyRoundTripIff(js, code, other);
    }
  }

  // -------------------------------------------------------------- encoded tables

  ghost predicate EncodedItems(js: Js, code: Code, usages: string -> nat, m: Items, r: Items) {
    KeysEncoded(js, code, m, r) && AllHandled(code, usages, m) && forall k :: k in m ==> r[Encode(js, code, k)] == m[k]
  }

  ghost predicate EncodedPallets(js: Js, code: Code, usages: string -> nat, m: map<string, Items>,
                                 r: map<string, Items>) {
    && KeysEncoded(js, code, m, r) && AllHandled(code, usages, m)
    && forall k :: k in m ==> EncodedItems(js, code, usages, m[k], r[Encode(js, code, k)])
  }

  ghost predicate EncodedTable(js: Js, code: Code, usages: string -> nat, m: Table, r: Minified) {
    && KeysEncoded(js, code, m, r) && AllHandled(code, usages, m)
    && forall k :: k in m ==> EncodedPallets(js, code, usages, m[k], r[Encode(js, code, k)])
  }

  lemma ItemsLater(js: Js, code: Code, later: Code, usages: string -> nat, m: Items, r: Items)
    requires js.Sound() && code.Valid() && later.Valid() && Extends(code, later, usages)
             && EncodedItems(js, code, usages, m, r)
    ensures EncodedItems(js, later, usages, m, r)
  {
    KeysLater(js, code, later, usages, m, r);
    SameLater(js, code, later, usages, m);
  }

  lemma PalletsLater(js: Js, code: Code, later: Code, usages: string -> nat, m: map<string, Items>,
                     r: map<string, Items>)
    requires js.Sound() && code.Valid() && later.Valid() && Extends(code, later, usages)
             && EncodedPallets(js, code, usages, m, r)
    ensures EncodedPallets(js, later, usages, m, r)
  {
    KeysLater(js, code, later, usages, m, r);
    SameLater(js, code, later, usages, m);
    forall k | k in m ensures EncodedItems(js, later, usages, m[k], r[Encode(js, later, k)]) {
      ItemsLater(js, code, later, usages, m[k], r[Encode(js, code, k)]);
    }
  }

  lemma TableLater(js: Js, code: Code, later: Code, usages: string -> nat, m: Table, r: Minified)
    requires js.Sound() && code.Valid() && later.Valid() && Extends(code, later, usages)
             && EncodedTable(js, code, usages, m, r)
    ensures EncodedTable(js, later, usages, m, r)
  {
    KeysLater(js, code, later, usages, m, r);
    SameLater(js, code, later, usages, m);
    forall k | k in m ensures EncodedPallets(js, later, usages, m[k], r[Encode(js, later, k)]) {
      PalletsLater(js, code, later, usages, m[k], r[Encode(js, code, k)]);
    }
  }

  lemma ItemAdded(js: Js, code: Code, usages: string -> nat, m: Items, r: Items, k: string, v: nat)
    requires js.Sound() && code.Valid() && EncodedItems(js, code, usages, m, r)
    requires Survives(js, usages, k) && (usages(k) > 1 ==> k in code.index)
    ensures EncodedItems(js, code, usages, m[k := v], r[Encode(js, code, k) := v])
  {
    KeyAdded(js, code, m, r, k, v, v);
  }

  lemma PalletAdded(js: Js, code: Code, usages: string -> nat, m: map<string, Items>, r: map<string, Items>, k: string,
                    v: Items, w: Items)
    requires js.Sound() && code.Valid() && EncodedPallets(js, code, usages, m, r)
             && EncodedItems(js, code, usages, v, w)
    requires Survives(js, usages, k) && (usages(k) > 1 ==> k in code.index)
    ensures EncodedPallets(js, code, usages, m[k := v], r[Encode(js, code, k) := w])
  {
    KeyAdded(js, code, m, r, k, v, w);
    HandledAdded(code, usages, m, k, v);
    hide EncodedItems, KeysEncoded, AllHandled, Encode, Js.Sound, Code.Valid, Survives;
    var m', r' := m[k := v], r[Encode(js, code, k) := w];
    forall l | l in m'
      ensures Encode(js, code, l) in r' && EncodedItems(js, code, usages, m'[l], r'[Encode(js, code, l)])
    {
      EncodedIn(js, code, m', r', l);
      if l != k { EncodedIn(js, code, m, r, l); }
    }
  }

  lemma KindAdded(js: Js, code: Code, usages: string -> nat, m: Table, r: Minified, k: string, v: map<string, Items>,
                  w: map<string, Items>)
    requires js.Sound() && code.Valid() && EncodedTable(js, code, usages, m, r)
             && EncodedPallets(js, code, usages, v, w)
    requires Survives(js, usages, k) && (usages(k) > 1 ==> k in code.index)
    ensures EncodedTable(js, code, usages, m[k := v], r[Encode(js, code, k) := w])
  {
    KeyAdded(js, code, m, r, k, v, w);
    HandledAdded(code, usages, m, k, v);
    hide EncodedPallets, KeysEncoded, AllHandled, Encode, Js.Sound, Code.Valid, Survives;
    var m', r' := m[k := v], r[Encode(js, code, k) := w];
    forall l | l in m'
      ensures Encode(js, code, l) in r' && EncodedPallets(js, code, usages, m'[l], r'[Encode(js, code, l)])
    {
      EncodedIn(js, code, m', r', l);
      if l != k { EncodedIn(js, code, m, r, l); }
    }
  }

  // ---------------------------------------------------------------- minified tables

  ghost predicate NamedItems(js: Js, usages: string -> nat, m: Items) {
    forall k :: k in m ==> Survives(js, usages, k)
  }

  ghost predicate NamedPallets(js: Js, usages: string -> nat, m: map<string, Items>) {
    forall k :: k in m ==> Survives(js, usages, k) && NamedItems(js, usages, m[k])
  }

  /** Every name in the table survives. */
  ghost predicate NamedTable(js: Js, usages: string -> nat, m: Table) {
    forall k :: k in m ==> Survives(js, usages, k) && NamedPallets(js, usages, m[k])
  }

  ghost predicate PlainKeys(tree: Items) {
    forall k :: k in tree ==> IsPlain(k)
  }

  ghost predicate PlainBelow(obj: map<string, Items>) {
    forall p :: p in obj ==> PlainKeys(obj[p])
  }

  ghost predicate PlainTrees(m: Minified) {
    forall t :: t in m ==> PlainBelow(m[t])
  }

  /** The names that occur once, and so keep their text, are plain. */
  ghost predicate PlainItems(js: Js, usages: string -> nat, m: Items) {
    forall k :: k in m ==> usages(k) > 1 || (IsPlain(k) && k !in js.inherited)
  }

  ghost predicate PlainPallets(js: Js, usages: string -> nat, m: map<string, Items>) {
    forall p :: p in m ==> PlainItems(js, usages, m[p])
  }

  ghost predicate PlainTable(js: Js, usages: string -> nat, m: Table) {
    forall t :: t in m ==> PlainPallets(js, usages, m[t])
  }

  ghost predicate HandledPallets(code: Code, usages: string -> nat, m: map<string, Items>) {
    AllHandled(code, usages, m) && forall p :: p in m ==> AllHandled(code, usages, m[p])
  }

  ghost predicate HandledTable(code: Code, usages: string -> nat, m: Table) {
    AllHandled(code, usages, m) && forall t :: t in m ==> HandledPallets(code, usages, m[t])
  }

  /** No key of the object is one that every object has. */
  ghost predicate OwnKeys<V>(js: Js, r: map<string, V>) {
    forall s :: s in r ==> s !in js.inherited
  }

  ghost predicate OwnPalletKeys(js: Js, r: map<string, Items>) {
    OwnKeys(js, r) && forall p :: p in r ==> OwnKeys(js, r[p])
  }

  ghost predicate OwnTableKeys(js: Js, r: Minified) {
    OwnKeys(js, r) && forall t :: t in r ==> OwnPalletKeys(js, r[t])
  }

  lemma EncodedOwn(js: Js, code: Code, name: string)
    requires js.Sound()
    ensures Encode(js, code, name) !in js.inherited
  {
    if name in code.index {
      assert js.number(Digits(code.index[name])) == Index(code.index[name]);
    }
  }

  /** The keys of `r` are those of `m` encoded, perhaps with some of them run together. */
  ghost predicate KeysImage<V, W>(js: Js, code: Code, m: map<string, V>, r: map<string, W>) {
    && (forall k :: k in m ==> Encode(js, code, k) in r)
    && (forall s :: s in r ==> exists k :: k in m && s == Encode(js, code, k))
  }

  /** What minifying does for any names, and for those that survive. */
  ghost predicate MinifiedItems(js: Js, code: Code, usages: string -> nat, m: Items, r: Items) {
    && AllHandled(code, usages, m) && OwnKeys(js, r) && (PlainItems(js, usages, m) ==> PlainKeys(r))
    && (NamedItems(js, usages, m) ==> EncodedItems(js, code, usages, m, r))
  }

  ghost predicate MinifiedPallets(js: Js, code: Code, usages: string -> nat, m: map<string, Items>,
                                  r: map<string, Items>) {
    && HandledPallets(code, usages, m) && OwnPalletKeys(js, r) && (PlainPallets(js, usages, m) ==> PlainBelow(r))
    && (NamedPallets(js, usages, m) ==> EncodedPallets(js, code, usages, m, r))
  }

  ghost predicate MinifiedTable(js: Js, code: Code, usages: string -> nat, m: Table, r: Minified) {
    && HandledTable(code, usages, m) && OwnTableKeys(js, r) && (PlainTable(js, usages, m) ==> PlainTrees(r))
       && KeysImage(js, code, m, r)
    && (NamedTable(js, usages, m) ==> EncodedTable(js, code, usages, m, r))
  }

  lemma HandledLater<V>(code: Code, later: Code, usages: string -> nat, m: map<string, V>)
    requires Extends(code, later, usages)
    ensures AllHandled(code, usages, m) ==> AllHandled(later, usages, m)
  {
  }

  lemma HandledPalletsLater(code: Code, later: Code, usages: string -> nat, m: map<string, Items>)
    requires Extends(code, later, usages) && HandledPallets(code, usages, m)
    ensures HandledPallets(later, usages, m)
  {
    hide Extends, AllHandled;
    HandledLater(code, later, usages, m);
    forall p | p in m ensures AllHandled(later, usages, m[p]) {
      HandledLater(code, later, usages, m[p]);
    }
  }

  lemma HandledTableLater(code: Code, later: Code, usages: string -> nat, m: Table)
    requires Extends(code, later, usages) && HandledTable(code, usages, m)
    ensures HandledTable(later, usages, m)
  {
    hide Extends, AllHandled, HandledPallets;
    HandledLater(code, later, usages, m);
    forall t | t in m ensures HandledPallets(later, usages, m[t]) {
      HandledPalletsLater(code, later, usages, m[t]);
    }
  }

  lemma ImageLater<V, W>(js: Js, code: Code, later: Code, usages: string -> nat, m: map<string, V>, r: map<string, W>)
    requires Extends(code, later, usages) && AllHandled(code, usages, m) && KeysImage(js, code, m, r)
    ensures KeysImage(js, later, m, r)
  {
    SameLater(js, code, later, usages, m);
    forall s | s in r ensures exists k :: k in m && s == Encode(js, later, k) {
      var k :| k in m && s == Encode(js, code, k);
      assert s == Encode(js, later, k);
    }
  }

  lemma ImageAdded<V, W>(js: Js, code: Code, m: map<string, V>, r: map<string, W>, k: string, v: V, w: W)
    requires KeysImage(js, code, m, r)
    ensures KeysImage(js, code, m[k := v], r[Encode(js, code, k) := w])
  {
    var r' := r[Encode(js, code, k) := w];
    forall s | s in r' ensures exists l :: l in m[k := v] && s == Encode(js, code, l) {
      if s == Encode(js, code, k) {
        assert k in m[k := v];
      } else {
        var l :| l in m && s == Encode(js, code, l);
        assert l in m[k := v];
      }
    }
  }

  lemma HandledAdded<V>(code: Code, usages: string -> nat, m: map<string, V>, k: string, v: V)
    requires AllHandled(code, usages, m) && (usages(k) > 1 ==> k in code.index)
    ensures AllHandled(code, usages, m[k := v])
  {
  }

  /** One more item, under a name that was handled. */
  lemma ItemStep(js: Js, before: Code, now: Code, usages: string -> nat, m: Items, r: Items, k: string, v: nat)
    requires js.Sound() && before.Valid() && now.Valid() && Extends(before, now, usages)
    requires MinifiedItems(js, before, usages, m, r) && (usages(k) > 1 ==> k in now.index)
    ensures MinifiedItems(js, now, usages, m[k := v], r[Encode(js, now, k) := v])
    ensures Extends(before, before, usages)
  {
    HandledLater(before, now, usages, m);
    HandledAdded(now, usages, m, k, v);
    EncodedOwn(js, now, k);
    if PlainItems(js, usages, m[k := v]) {
      assert k in m[k := v];
      assert forall l :: l in m ==> l in m[k := v];
      EncodedPlain(js, now, k);
    }
    hide EncodedItems, Encode, IsPlain, AllHandled, Survives, Js.Sound, Code.Valid;
    if NamedItems(js, usages, m[k := v]) {
      assert k in m[k := v];
      assert forall l :: l in m ==> l in m[k := v];
      ItemsLater(js, before, now, usages, m, r);
      ItemAdded(js, now, usages, m, r, k, v);
    }
  }

  /** Two results for one more pallet. */
  lemma PalletStep(js: Js, before: Code, middle: Code, now: Code, usages: string -> nat,
                   m: map<string, Items>, r: map<string, Items>, k: string, v: Items, w: Items)
    requires js.Sound() && before.Valid() && middle.Valid() && now.Valid()
    requires Extends(before, middle, usages) && Extends(middle, now, usages)
    requires MinifiedPallets(js, before, usages, m, r) && MinifiedItems(js, middle, usages, v, w)
    requires (usages(k) > 1 ==> k in now.index) && k !in m
    ensures MinifiedPallets(js, now, usages, m[k := v], r[Encode(js, now, k) := w])
  {
    hide EncodedPallets, EncodedItems, Encode, IsPlain, PlainKeys, NamedItems, AllHandled, Survives, Js.Sound,
        Code.Valid;
    ExtendsTwice(before, middle, now, usages);
    HandledPalletsLater(before, now, usages, m);
    HandledAdded(now, usages, m, k, v);
    HandledLater(middle, now, usages, v);
    EncodedOwn(js, now, k);
    assert forall l :: l in m ==> l in m[k := v] && m[k := v][l] == m[l];
    assert k in m[k := v] && m[k := v][k] == v;
    if NamedPallets(js, usages, m[k := v]) {
      PalletsLater(js, before, now, usages, m, r);
      ItemsLater(js, middle, now, usages, v, w);
      PalletAdded(js, now, usages, m, r, k, v, w);
    }
  }

  lemma KindStep(js: Js, before: Code, middle: Code, now: Code, usages: string -> nat,
                 m: Table, r: Minified, k: string, v: map<string, Items>, w: map<string, Items>)
    requires js.Sound() && before.Valid() && middle.Valid() && now.Valid()
    requires Extends(before, middle, usages) && Extends(middle, now, usages)
    requires MinifiedTable(js, before, usages, m, r) && MinifiedPallets(js, middle, usages, v, w)
    requires (usages(k) > 1 ==> k in now.index) && k !in m
    ensures MinifiedTable(js, now, usages, m[k := v], r[Encode(js, now, k) := w])
  {
    hide EncodedTable, EncodedPallets, Encode, PlainPallets, NamedPallets, HandledPallets, AllHandled, Survives,
        KeysImage, Js.Sound, Code.Valid;
    ExtendsTwice(before, middle, now, usages);
    ImageLater(js, before, now, usages, m, r);
    ImageAdded(js, now, m, r, k, v, w);
    HandledTableLater(before, now, usages, m);
    HandledAdded(now, usages, m, k, v);
    HandledPalletsLater(middle, now, usages, v);
    EncodedOwn(js, now, k);
    assert forall l :: l in m ==> l in m[k := v] && m[k := v][l] == m[l];
    assert k in m[k := v] && m[k := v][k] == v;
    if NamedTable(js, usages, m[k := v]) {
      TableLater(js, before, now, usages, m, r);
      PalletsLater(js, middle, now, usages, v, w);
      KindAdded(js, now, usages, m, r, k, v, w);
    }
  }

  lemma ExtendsTwice(a: Code, b: Code, c: Code, usages: string -> nat)
    requires Extends(a, b, usages) && Extends(b, c, usages)
    ensures Extends(a, c, usages)
  {
  }

  lemma ExtendsSelf(code: Code, usages: string -> nat)
    requires Extends(Code([], map[]), code, usages)
    ensures Extends(code, code, usages)
  {
  }

  lemma ExtendsOn(a: Code, b: Code, c: Code, d: Code, usages: string -> nat)
    requires Extends(a, b, usages) && Extends(b, c, usages) && Extends(c, d, usages)
    ensures Extends(a, d, usages)
  {
  }

  class Tokenizer {
    const js: Js
    const usages: string -> nat
    var tokens: seq<string>
    var tokenToIdx: map<string, nat>

    constructor (js: Js, usages: string -> nat)
      ensures this.js == js && this.usages == usages && Now() == Code([], map[])
    {
      this.js, this.usages, tokens, tokenToIdx := js, usages, [], map[];
    }

    ghost function Now(): Code
      reads this
    {
      Code(tokens, tokenToIdx)
    }

    ghost predicate Ok()
      reads this
    {
      js.Sound() && (forall k :: k in js.inherited ==> usages(k) == 0) && Now().Valid()
          && Extends(Code([], map[]), Now(), usages)
    }

    method MinifyKey(key: string) returns (r: string)
      requires Ok()
      modifies this
      ensures Ok() && Extends(old(Now()), Now(), usages)
      ensures r == Encode(js, Now(), key) && (usages(key) > 1 ==> key in tokenToIdx)
    {
      if key in js.inherited {
        return js.inherited[key];   // the count is NaN, and an index is found
      }
      if usages(key) <= 1 {
        return key;
      }
      if key !in tokenToIdx {
        tokenToIdx := tokenToIdx[key := |tokens|];
        tokens := tokens + [key];
      }
      return Digits(tokenToIdx[key]);
    }

    method MinifyItems(obj: Items) returns (r: Items)
      requires Ok()
      modifies this
      ensures Ok() && Extends(old(Now()), Now(), usages) && MinifiedItems(js, Now(), usages, obj, r)
    {
      hide MinifiedItems, Code.Valid, Extends, Encode, Js.Sound;
      r := map[];
      var keys := js.keys(obj.Keys);
      KeysOf(js, obj.Keys);
      ghost var done: Items := map[];
      NoItems(js, Now(), usages);
      ExtendsSelf(Now(), usages);
      for i := 0 to |keys|
        invariant Ok() && Extends(old(Now()), Now(), usages)
        invariant forall k :: k in done ==> k in obj && done[k] == obj[k]
        invariant forall k :: k in done <==> k in keys[..i]
        invariant MinifiedItems(js, Now(), usages, done, r)
      {
        ghost var before := Now();
        assert keys[i] in keys;
        NotBefore(keys, i);
        NextPrefix(keys, i);
        var key := MinifyKey(keys[i]);
        ItemStep(js, before, Now(), usages, done, r, keys[i], obj[keys[i]]);
        ExtendsOn(old(Now()), before, before, Now(), usages);
        r := r[key := obj[keys[i]]];
        done := done[keys[i] := obj[keys[i]]];
      }
      assert keys[..|keys|] == keys;
      assert done == obj;
    }

    method MinifyPallets(obj: map<string, Items>) returns (r: map<string, Items>)
      requires Ok()
      modifies this
      ensures Ok() && Extends(old(Now()), Now(), usages) && MinifiedPallets(js, Now(), usages, obj, r)
    {
      hide MinifiedPallets, MinifiedItems, Code.Valid, Extends, Encode, Js.Sound;
      r := map[];
      var keys := js.keys(obj.Keys);
      KeysOf(js, obj.Keys);
      ghost var done: map<string, Items> := map[];
      NoPallets(js, Now(), usages);
      ExtendsSelf(Now(), usages);
      for i := 0 to |keys|
        invariant Ok() && Extends(old(Now()), Now(), usages)
        invariant forall k :: k in done ==> k in obj && done[k] == obj[k]
        invariant forall k :: k in done <==> k in keys[..i]
        invariant MinifiedPallets(js, Now(), usages, done, r)
      {
        ghost var before := Now();
        assert keys[i] in keys;
        NotBefore(keys, i);
        NextPrefix(keys, i);
        var newValue := MinifyItems(obj[keys[i]]);
        ghost var middle := Now();
        var key := MinifyKey(keys[i]);
        PalletStep(js, before, middle, Now(), usages, done, r, keys[i], obj[keys[i]], newValue);
        ExtendsOn(old(Now()), before, middle, Now(), usages);
        r := r[key := newValue];
        done := done[keys[i] := obj[keys[i]]];
      }
      assert keys[..|keys|] == keys;
      assert done == obj;
    }

    method MinifyTable(obj: Table) returns (r: Minified)
      requires Ok()
      modifies this
      ensures Ok() && Extends(old(Now()), Now(), usages) && MinifiedTable(js, Now(), usages, obj, r)
    {
      hide MinifiedTable, MinifiedPallets, Code.Valid, Extends, Encode, Js.Sound;
      r := map[];
      var keys := js.keys(obj.Keys);
      KeysOf(js, obj.Keys);
      ghost var done: Table := map[];
      NoKinds(js, Now(), usages);
      ExtendsSelf(Now(), usages);
      for i := 0 to |keys|
        invariant Ok() && Extends(old(Now()), Now(), usages)
        invariant forall k :: k in done ==> k in obj && done[k] == obj[k]
        invariant forall k :: k in done <==> k in keys[..i]
        invariant MinifiedTable(js, Now(), usages, done, r)
      {
        ghost var before := Now();
        assert keys[i] in keys;
        NotBefore(keys, i);
        NextPrefix(keys, i);
        var newValue := MinifyPallets(obj[keys[i]]);
        ghost var middle := Now();
        var key := MinifyKey(keys[i]);
        KindStep(js, before, middle, Now(), usages, done, r, keys[i], obj[keys[i]], newValue);
        ExtendsOn(old(Now()), before, middle, Now(), usages);
        r := r[key := newValue];
        done := done[keys[i] := obj[keys[i]]];
      }
      assert keys[..|keys|] == keys;
      assert done == obj;
    }
  }

  lemma NoItems(js: Js, code: Code, usages: string -> nat)
    ensures MinifiedItems(js, code, usages, map[], map[])
  {
  }

  lemma NoPallets(js: Js, code: Code, usages: string -> nat)
    ensures MinifiedPallets(js, code, usages, map[], map[])
  {
  }

  lemma NoKinds(js: Js, code: Code, usages: string -> nat)
    ensures MinifiedTable(js, code, usages, map[], map[])
  {
  }

  // ------------------------------------------------------------------- tree keys

  function Entry(key: string, value: nat): string {
    "[" + key + ":" + Digits(value) + "]"
  }

  /** The entries of a tree one after the other. */
  function Join(tree: Items, keys: seq<string>): string
    requires forall k :: k in keys ==> k in tree
  {
    if keys == [] then "" else Join(tree, keys[..|keys| - 1]) + Entry(keys[|keys| - 1], tree[keys[|keys| - 1]])
  }

  function TreeKey(js: Js, tree: Items): string
    requires js.Sound()
  {
    Join(tree, js.sort(tree.Keys))
  }

  lemma SameLast(s: string, i: nat, j: nat, c: char)
    requires i < |s| && j < |s| && s[i] == c && s[j] == c
    requires forall k :: i < k < |s| ==> s[k] != c
    requires forall k :: j < k < |s| ==> s[k] != c
    ensures i == j
  {
  }

  lemma SameFirst(s: string, i: nat, j: nat, c: char)
    requires i < |s| && j < |s| && s[i] == c && s[j] == c
    requires forall k :: 0 <= k < i ==> s[k] != c
    requires forall k :: 0 <= k < j ==> s[k] != c
    ensures i == j
  {
  }

  lemma SplitAt(a: string, x: string, b: string, y: string, c: char)
    requires a + [c] + x == b + [c] + y && c !in x && c !in y
    ensures a == b && x == y
  {
    var s, t := a + [c] + x, b + [c] + y;
    assert s[|a|] == c && t[|b|] == c;
    assert forall k :: |a| < k < |s| ==> s[k] == x[k - |a| - 1];
    assert forall k :: |b| < k < |t| ==> t[k] == y[k - |b| - 1];
    SameLast(s, |a|, |b|, c);
    assert s[..|a|] == a && s[|a| + 1..] == x;
    assert t[..|b|] == b && t[|b| + 1..] == y;
  }

  lemma SplitFirst(a: string, x: string, b: string, y: string, c: char)
    requires a + [c] + x == b + [c] + y && c !in a && c !in b
    ensures a == b && x == y
  {
    var s, t := a + [c] + x, b + [c] + y;
    assert s[|a|] == c && t[|b|] == c;
    assert forall k :: 0 <= k < |a| ==> s[k] == a[k];
    assert forall k :: 0 <= k < |b| ==> t[k] == b[k];
    SameFirst(s, |a|, |b|, c);
    assert s[..|a|] == a && s[|a| + 1..] == x;
    assert t[..|b|] == b && t[|b| + 1..] == y;
  }

  lemma EntriesDiffer(a: string, k: string, v: nat, b: string, l: string, w: nat)
    requires a + Entry(k, v) == b + Entry(l, w) && IsPlain(k) && IsPlain(l)
    ensures a == b && k == l && v == w
  {
    var x, y := k + ":" + Digits(v) + "]", l + ":" + Digits(w) + "]";
    assert a + Entry(k, v) == a + ['['] + x && b + Entry(l, w) == b + ['['] + y;
    SplitAt(a, x, b, y, '[');
    var xd, yd := Digits(v) + "]", Digits(w) + "]";
    assert x == k + [':'] + xd && y == l + [':'] + yd;
    SplitFirst(k, xd, l, yd, ':');
    assert xd[..|xd| - 1] == Digits(v) && yd[..|yd| - 1] == Digits(w);
    DigitsDiffer(v, w);
  }

  lemma JoinedNotEmpty(tree: Items, keys: seq<string>)
    requires keys != [] && forall k :: k in keys ==> k in tree
    ensures Join(tree, keys) != ""
  {
  }

  lemma {:induction false} JoinsDiffer(s: Items, keys: seq<string>, t: Items, others: seq<string>)
    requires PlainKeys(s) && PlainKeys(t)
    requires (forall k :: k in keys ==> k in s) && (forall k :: k in others ==> k in t)
    requires Join(s, keys) == Join(t, others)
    ensures keys == others && forall k :: k in keys ==> s[k] == t[k]
  {
    if keys == [] {
      if others != [] { JoinedNotEmpty(t, others); }
    } else if others == [] {
      JoinedNotEmpty(s, keys);
    } else {
      var m, n := |keys| - 1, |others| - 1;
      assert IsPlain(keys[m]) && IsPlain(others[n]);
      JoinLast(s, keys);
      JoinLast(t, others);
      hide Join, PlainKeys, IsPlain, Entry;
      EntriesDiffer(Join(s, keys[..m]), keys[m], s[keys[m]], Join(t, others[..n]), others[n], t[others[n]]);
      JoinsDiffer(s, keys[..m], t, others[..n]);
      LastOnTop(keys);
      LastOnTop(others);
    }
  }

  lemma JoinLast(tree: Items, keys: seq<string>)
    requires keys != [] && forall k :: k in keys ==> k in tree
    ensures Join(tree, keys) == Join(tree, keys[..|keys| - 1]) + Entry(keys[|keys| - 1], tree[keys[|keys| - 1]])
  {
  }

  lemma LastOnTop<T>(xs: seq<T>)
    requires xs != []
    ensures xs == xs[..|xs| - 1] + [xs[|xs| - 1]]
  {
  }

  /** Trees with the same key are the same. */
  lemma TreeKeysDiffer(js: Js, s: Items, t: Items)
    requires js.Sound() && PlainKeys(s) && PlainKeys(t) && TreeKey(js, s) == TreeKey(js, t)
    ensures s == t
  {
    JoinsDiffer(s, js.sort(s.Keys), t, js.sort(t.Keys));
    assert forall k :: k in s <==> k in js.sort(s.Keys);
    assert forall k :: k in t <==> k in js.sort(t.Keys);
  }

  // --------------------------------------------------------------- common trees

  /** The tree itself, or a common tree with its key. */
  ghost predicate KeyedFor(js: Js, commonTrees: seq<Items>, items: Items, tree: Tree)
    requires js.Sound()
  {
    match tree
    case Own(own) => own == items
    case Common(i) => i < |commonTrees| && TreeKey(js, commonTrees[i]) == TreeKey(js, items)
  }

  ghost predicate KeyedPallets(js: Js, commonTrees: seq<Items>, obj: map<string, Items>, r: map<string, Tree>)
    requires js.Sound()
  {
    r.Keys == obj.Keys && forall p :: p in obj ==> KeyedFor(js, commonTrees, obj[p], r[p])
  }

  ghost predicate KeyedTable(js: Js, commonTrees: seq<Items>, obj: Minified, r: Shared)
    requires js.Sound()
  {
    r.Keys == obj.Keys && forall t :: t in obj ==> KeyedPallets(js, commonTrees, obj[t], r[t])
  }

  ghost predicate KeyedTables(js: Js, commonTrees: seq<Items>, obj: map<string, Minified>, r: map<string, Shared>)
    requires js.Sound()
  {
    r.Keys == obj.Keys && forall c :: c in obj ==> KeyedTable(js, commonTrees, obj[c], r[c])
  }

  lemma PalletsMore(js: Js, trees: seq<Items>, more: seq<Items>, obj: map<string, Items>, r: map<string, Tree>)
    requires js.Sound() && KeyedPallets(js, trees, obj, r) && trees <= more
    ensures KeyedPallets(js, more, obj, r)
  {
    hide TreeKey, Js.Sound;
    forall p | p in obj ensures KeyedFor(js, more, obj[p], r[p]) {
      assert KeyedFor(js, trees, obj[p], r[p]);
    }
  }

  lemma KeyedLater(js: Js, trees: seq<Items>, more: seq<Items>, obj: map<string, Minified>, r: map<string, Shared>)
    requires js.Sound() && KeyedTables(js, trees, obj, r) && trees <= more
    ensures KeyedTables(js, more, obj, r)
  {
    hide KeyedPallets, Js.Sound;
    forall c | c in obj ensures KeyedTable(js, more, obj[c], r[c]) {
      assert KeyedTable(js, trees, obj[c], r[c]);
      forall t | t in obj[c] ensures KeyedPallets(js, more, obj[c][t], r[c][t]) {
        PalletsMore(js, trees, more, obj[c][t], r[c][t]);
      }
    }
  }

  lemma KeyedReplaced(js: Js, trees: seq<Items>, obj: map<string, Minified>, r: map<string, Shared>, c: string,
                      t: string, q: map<string, Tree>)
    requires js.Sound() && KeyedTables(js, trees, obj, r)
    requires c in obj && t in obj[c] && KeyedPallets(js, trees, obj[c][t], q)
    ensures t in r[c] && KeyedTables(js, trees, obj, r[c := r[c][t := q]])
  {
    hide KeyedPallets, Js.Sound;
    assert KeyedTable(js, trees, obj[c], r[c]);
  }

  function OwnPallets(obj: map<string, Items>): map<string, Tree> {
    map p | p in obj :: Own(obj[p])
  }

  function OwnTable(obj: Minified): Shared {
    map t | t in obj :: OwnPallets(obj[t])
  }

  /** How often a tree with the key occurs. */
  function TreeUsages(js: Js, minified: map<string, Minified>, key: string): nat
    requires js.Sound()
  {
    |set c, t, p |
       c in minified && t in minified[c] && p in minified[c][t] && TreeKey(js, minified[c][t][p]) == key :: (c, t, p)|
  }

  ghost predicate HasTreeAt(js: Js, minified: map<string, Minified>, key: string, at: (string, string, string))
    requires js.Sound()
  {
    at.0 in minified && at.1 in minified[at.0] && at.2 in minified[at.0][at.1]
    && TreeKey(js, minified[at.0][at.1][at.2]) == key
  }

  lemma MoreThanOne<T(!new)>(s: set<T>)
    ensures |s| > 1 <==> exists a, b :: a in s && b in s && a != b
  {
    if |s| > 1 {
      var a :| a in s;
      assert |s - {a}| > 0;
      var b :| b in s - {a};
    }
    if a, b :| a in s && b in s && a != b {
      SubsetIsSmaller({a, b}, s);
    }
  }

  /** A tree with the key occurs more than once if it does at two places. */
  lemma UsedTwice(js: Js, minified: map<string, Minified>, key: string)
    requires js.Sound()
    ensures TreeUsages(js, minified, key) > 1 <==>
      exists a, b :: a != b && HasTreeAt(js, minified, key, a) && HasTreeAt(js, minified, key, b)
  {
    hide TreeKey, Js.Sound;
    var places := set c, t, p |
      c in minified && t in minified[c] && p in minified[c][t] && TreeKey(js, minified[c][t][p]) == key :: (c, t, p);
    forall at: (string, string, string) ensures at in places <==> HasTreeAt(js, minified, key, at) {
      assert at == (at.0, at.1, at.2);
    }
    assert TreeUsages(js, minified, key) == |places|;
    hide HasTreeAt;
    MoreThanOne(places);
  }

  /** Of the pallets in `done`, exactly the trees that occur more than once are shared. */
  ghost predicate ExactPallets(js: Js, minified: map<string, Minified>, obj: map<string, Items>, r: map<string, Tree>,
                               done: set<string>)
    requires js.Sound()
  {
    forall p :: p in done && p in obj && p in r ==>
        (r[p].Common? <==> TreeUsages(js, minified, TreeKey(js, obj[p])) > 1)
  }

  ghost predicate ExactTables(js: Js, minified: map<string, Minified>, shared: map<string, Shared>,
                              done: set<(string, string)>)
    requires js.Sound()
  {
    forall c, t :: (c, t) in done && c in minified && t in minified[c] && c in shared && t in shared[c] ==>
      ExactPallets(js, minified, minified[c][t], shared[c][t], minified[c][t].Keys)
  }

  /** Exactly the trees that occur more than once are shared. */
  ghost predicate AllExact(js: Js, minified: map<string, Minified>, shared: map<string, Shared>)
    requires js.Sound()
  {
    forall c, t :: c in minified && t in minified[c] && c in shared && t in shared[c] ==>
      ExactPallets(js, minified, minified[c][t], shared[c][t], minified[c][t].Keys)
  }

  lemma ExactReplaced(js: Js, minified: map<string, Minified>, shared: map<string, Shared>,
                      done: set<(string, string)>, c: string, t: string, q: map<string, Tree>)
    requires js.Sound() && ExactTables(js, minified, shared, done) && c in minified && t in minified[c] && c in shared
    requires ExactPallets(js, minified, minified[c][t], q, minified[c][t].Keys)
    ensures ExactTables(js, minified, shared[c := shared[c][t := q]], done + {(c, t)})
  {
    hide ExactPallets, Js.Sound;
    var shared' := shared[c := shared[c][t := q]];
    forall c', t' |
      (c', t') in done + {(c, t)} && c' in minified && t' in minified[c'] && c' in shared' && t' in shared'[c']
      ensures ExactPallets(js, minified, minified[c'][t'], shared'[c'][t'], minified[c'][t'].Keys)
    {
      if (c', t') != (c, t) {
        assert shared'[c'][t'] == shared[c'][t'];
      }
    }
  }

  ghost predicate HasTreeKey(js: Js, trees: seq<Items>, key: string)
    requires js.Sound()
  {
    exists i :: 0 <= i < |trees| && TreeKey(js, trees[i]) == key
  }

  /** The common trees after one more tree, which is added if it is the first with its key and not the only one. */
  ghost function WithTree(js: Js, minified: map<string, Minified>, commonTrees: seq<Items>, tree: Items): seq<Items>
    requires js.Sound()
  {
    var key := TreeKey(js, tree);
    if TreeUsages(js, minified, key) > 1 && !HasTreeKey(js, commonTrees, key) then commonTrees + [tree] else commonTrees
  }

  /** The common trees after some more trees, met in this order. */
  ghost function WithTrees(js: Js, minified: map<string, Minified>, commonTrees: seq<Items>,
                           trees: seq<Items>): seq<Items>
    requires js.Sound()
  {
    if trees == [] then commonTrees
    else WithTree(js, minified, WithTrees(js, minified, commonTrees, trees[..|trees| - 1]), trees[|trees| - 1])
  }

  lemma {:induction false} WithBoth(js: Js, minified: map<string, Minified>, commonTrees: seq<Items>, a: seq<Items>,
                                    b: seq<Items>)
    requires js.Sound()
    ensures WithTrees(js, minified, WithTrees(js, minified, commonTrees, a), b)
            == WithTrees(js, minified, commonTrees, a + b)
  {
    hide WithTree, Js.Sound;
    if b == [] {
      assert a + b == a;
    } else {
      var n := |b| - 1;
      WithBoth(js, minified, commonTrees, a, b[..n]);
      assert (a + b)[..|a + b| - 1] == a + b[..n] && (a + b)[|a + b| - 1] == b[n];
    }
  }

  function PalletTrees(obj: map<string, Items>, keys: seq<string>): seq<Items> {
    if keys == [] then []
    else
      var n := |keys| - 1;
      PalletTrees(obj, keys[..n]) + (if keys[n] in obj then [obj[keys[n]]] else [])
  }

  /** The trees of one kind, chain after chain. */
  function KindTrees(js: Js, minified: map<string, Minified>, chains: seq<string>, kind: string): seq<Items> {
    if chains == [] then []
    else
      var n := |chains| - 1;
      KindTrees(js, minified, chains[..n], kind) + TreesAt(js, minified, chains[n], kind)
  }

  function TreesAt(js: Js, minified: map<string, Minified>, chain: string, kind: string): seq<Items> {
    if chain in minified && kind in minified[chain]
    then PalletTrees(minified[chain][kind], js.keys(minified[chain][kind].Keys))
    else []
  }

  /** All trees as they are met: kind after kind, and of each kind chain after chain. */
  function TreesInOrder(js: Js, minified: map<string, Minified>, chains: seq<string>, kinds: seq<string>): seq<Items> {
    if kinds == [] then []
    else
      var n := |kinds| - 1;
      TreesInOrder(js, minified, chains, kinds[..n]) + KindTrees(js, minified, chains, kinds[n])
  }

  /** The keys of the common trees, each with its place. */
  ghost predicate Indexed(js: Js, commonTrees: seq<Items>, keyToCommonTree: map<string, nat>)
    requires js.Sound()
  {
    && (forall key :: key in keyToCommonTree ==>
          keyToCommonTree[key] < |commonTrees| && TreeKey(js, commonTrees[keyToCommonTree[key]]) == key)
    && (forall i :: 0 <= i < |commonTrees| ==>
          TreeKey(js, commonTrees[i]) in keyToCommonTree && keyToCommonTree[TreeKey(js, commonTrees[i])] == i)
  }

  lemma IndexedKey(js: Js, commonTrees: seq<Items>, keyToCommonTree: map<string, nat>, key: string)
    requires js.Sound() && Indexed(js, commonTrees, keyToCommonTree)
    ensures key in keyToCommonTree <==> HasTreeKey(js, commonTrees, key)
    ensures key in keyToCommonTree ==>
              keyToCommonTree[key] < |commonTrees| && TreeKey(js, commonTrees[keyToCommonTree[key]]) == key
  {
    hide TreeKey, Js.Sound;
  }

  lemma IndexedMore(js: Js, commonTrees: seq<Items>, keyToCommonTree: map<string, nat>, tree: Items)
    requires js.Sound() && Indexed(js, commonTrees, keyToCommonTree) && TreeKey(js, tree) !in keyToCommonTree
    ensures Indexed(js, commonTrees + [tree], keyToCommonTree[TreeKey(js, tree) := |commonTrees|])
  {
    hide TreeKey, Js.Sound;
  }

  class Sharer {
    const js: Js
    const minified: map<string, Minified>
    var commonTrees: seq<Items>
    var keyToCommonTree: map<string, nat>

    constructor (js: Js, minified: map<string, Minified>)
      requires js.Sound()
      ensures this.js == js && this.minified == minified && commonTrees == [] && Ok()
    {
      this.js, this.minified, commonTrees, keyToCommonTree := js, minified, [], map[];
    }

    ghost predicate Ok()
      reads this
    {
      js.Sound() && Indexed(js, commonTrees, keyToCommonTree)
    }

    /** Replaces the trees that occur more than once, each by the first tree met with its key. */
    method ShareObject(obj: map<string, Items>) returns (r: map<string, Tree>)
      requires Ok()
      modifies this
      ensures Ok() && old(commonTrees) <= commonTrees && KeyedPallets(js, commonTrees, obj, r)
      ensures commonTrees == WithTrees(js, minified, old(commonTrees), PalletTrees(obj, js.keys(obj.Keys)))
      ensures ExactPallets(js, minified, obj, r, obj.Keys)
    {
      hide ExactPallets, KeyedPallets, Js.Sound, OwnPallets, Indexed, WithTree;
      r := OwnPallets(obj);
      AllPalletsOwn(js, minified, commonTrees, obj);
      var keys := js.keys(obj.Keys);
      KeysOf(js, obj.Keys);
      assert keys[..0] == [] && Elements<string>([]) == {};
      for i := 0 to |keys|
        invariant Ok() && old(commonTrees) <= commonTrees && KeyedPallets(js, commonTrees, obj, r)
        invariant commonTrees == WithTrees(js, minified, old(commonTrees), PalletTrees(obj, keys[..i]))
        invariant ExactPallets(js, minified, obj, r, Elements(keys[..i]))
        invariant forall p :: p in obj && p !in keys[..i] ==> p in r && r[p].Own?
      {
        assert keys[i] in keys;
        NotBefore(keys, i);
        PalletTreesNext(js, minified, old(commonTrees), obj, keys, i);
        r := ShareTree(obj, r, keys[i], Elements(keys[..i]));
      }
      assert keys[..|keys|] == keys;
      assert obj.Keys == Elements(keys);
    }

    method ShareTree(obj: map<string, Items>, shared: map<string, Tree>, objKey: string, ghost done: set<string>)
      returns (r: map<string, Tree>)
      requires Ok() && ExactPallets(js, minified, obj, shared, done) && objKey !in done
      requires objKey in shared && shared[objKey].Own?
      requires objKey in obj && KeyedPallets(js, commonTrees, obj, shared)
      modifies this
      ensures Ok() && old(commonTrees) <= commonTrees && KeyedPallets(js, commonTrees, obj, r)
      ensures commonTrees == WithTree(js, minified, old(commonTrees), obj[objKey])
      ensures ExactPallets(js, minified, obj, r, done + {objKey})
      ensures forall p :: p in shared && p != objKey ==> p in r && r[p] == shared[p]
    {
      hide TreeKey, TreeUsages, Js.Sound, Indexed, HasTreeKey;
      var tree := obj[objKey];
      var key := TreeKey(js, tree);
      if TreeUsages(js, minified, key) <= 1 {
        return shared;
      }
      IndexedKey(js, commonTrees, keyToCommonTree, key);
      if key !in keyToCommonTree {
        IndexedMore(js, commonTrees, keyToCommonTree, tree);
        keyToCommonTree := keyToCommonTree[key := |commonTrees|];
        commonTrees := commonTrees + [tree];
      }
      PalletsMore(js, old(commonTrees), commonTrees, obj, shared);
      r := shared[objKey := Common(keyToCommonTree[key])];
    }
  }

  lemma PalletTreesNext(js: Js, minified: map<string, Minified>, commonTrees: seq<Items>, obj: map<string, Items>,
                        keys: seq<string>, i: nat)
    requires js.Sound() && i < |keys| && keys[i] in obj
    ensures WithTrees(js, minified, commonTrees, PalletTrees(obj, keys[..i + 1]))
            == WithTree(js, minified, WithTrees(js, minified, commonTrees, PalletTrees(obj, keys[..i])), obj[keys[i]])
  {
    hide WithTree, Js.Sound;
    assert keys[..i + 1][..i] == keys[..i];
    var before := PalletTrees(obj, keys[..i]);
    assert (before + [obj[keys[i]]])[..|before|] == before;
  }

  lemma AllPalletsOwn(js: Js, minified: map<string, Minified>, commonTrees: seq<Items>, obj: map<string, Items>)
    requires js.Sound()
    ensures KeyedPallets(js, commonTrees, obj, OwnPallets(obj)) && ExactPallets(js, minified, obj, OwnPallets(obj), {})
    ensures forall p :: p in obj ==> p in OwnPallets(obj) && OwnPallets(obj)[p].Own?
  {
  }

  lemma NotBefore(keys: seq<string>, i: nat)
    requires i < |keys| && forall j, k :: 0 <= j < k < |keys| ==> keys[j] != keys[k]
    ensures keys[i] !in keys[..i]
    ensures Elements(keys[..i + 1]) == Elements(keys[..i]) + {keys[i]}
  {
    assert keys[..i + 1] == keys[..i] + [keys[i]];
  }

  /** All chains have the same kinds. */
  ghost predicate KindsAre(minified: map<string, Minified>, kinds: set<string>) {
    forall c :: c in minified ==> minified[c].Keys == kinds
  }

  /** Some objects are done, and each tree is its own or has a common tree with its key. */
  ghost predicate Sharing(js: Js, minified: map<string, Minified>, shared: map<string, Shared>,
                          commonTrees: seq<Items>, done: set<(string, string)>)
    requires js.Sound()
  {
    && KeyedTables(js, commonTrees, minified, shared) && ExactTables(js, minified, shared, done)
    && shared.Keys == minified.Keys
  }

  lemma SharingMore(js: Js, minified: map<string, Minified>, shared: map<string, Shared>, trees: seq<Items>,
                    more: seq<Items>, done: set<(string, string)>,
                    c: string, t: string, q: map<string, Tree>)
    requires js.Sound() && Sharing(js, minified, shared, trees, done) && trees <= more
    requires c in minified && t in minified[c] && KeyedPallets(js, more, minified[c][t], q)
    requires ExactPallets(js, minified, minified[c][t], q, minified[c][t].Keys)
    ensures t in shared[c] && Sharing(js, minified, shared[c := shared[c][t := q]], more, done + {(c, t)})
  {
    hide KeyedTables, ExactTables, KeyedPallets, ExactPallets, Js.Sound;
    KeyedLater(js, trees, more, minified, shared);
    KeyedReplaced(js, more, minified, shared, c, t, q);
    ExactReplaced(js, minified, shared, done, c, t, q);
  }

  /**
   * All trees of all chains are candidates; every chain has the same kinds. A tree that occurs more
   * than once, or rather its key, is replaced by the first tree met with that key.
   */
  method FindCommonTrees(js: Js, minified: map<string, Minified>, first: string)
    returns (shared: map<string, Shared>, commonTrees: seq<Items>)
    requires js.Sound() && first in minified && KindsAre(minified, minified[first].Keys)
    ensures KeyedTables(js, commonTrees, minified, shared)
    ensures var order := TreesInOrder(js, minified, js.keys(minified.Keys), js.keys(minified[first].Keys));
            commonTrees == WithTrees(js, minified, [], order)
    ensures AllExact(js, minified, shared)
  {
    hide *;
    var sharer := new Sharer(js, minified);
    shared := map c | c in minified :: OwnTable(minified[c]);
    var kinds := js.keys(minified[first].Keys);
    ghost var chains := js.keys(minified.Keys);
    AllOwn(js, minified, shared);
    KeysOf(js, minified[first].Keys);
    NoKindsDone(js, minified, chains);
    assert kinds[..0] == [];
    ghost var done: set<(string, string)> := {};
    for i := 0 to |kinds|
      invariant sharer.Ok() && sharer.js == js && sharer.minified == minified && fresh(sharer)
      invariant Sharing(js, minified, shared, sharer.commonTrees, done)
      invariant KindsDone(minified, kinds[..i], done)
      invariant sharer.commonTrees == WithTrees(js, minified, [], TreesInOrder(js, minified, chains, kinds[..i]))
    {
      assert kinds[i] in kinds;
      InEveryChain(minified, minified[first].Keys, kinds[i]);
      ghost var before, treesBefore := done, sharer.commonTrees;
      shared, done := ShareKind(sharer, shared, kinds[i], done);
      KindsDoneMore(minified, kinds, i, before, done);
      KindTreesNext(js, minified, chains, kinds, i);
    }
    commonTrees := sharer.commonTrees;
    assert kinds[..|kinds|] == kinds;
    AllPairsDone(minified, minified[first].Keys, kinds, done);
    ExactDone(js, minified, shared, commonTrees, done);
  }

  lemma InEveryChain(minified: map<string, Minified>, kinds: set<string>, t: string)
    requires KindsAre(minified, kinds) && t in kinds
    ensures forall c :: c in minified ==> t in minified[c]
  {
  }

  lemma KindTreesNext(js: Js, minified: map<string, Minified>, chains: seq<string>, kinds: seq<string>, i: nat)
    requires js.Sound() && i < |kinds|
    ensures WithTrees(js, minified, WithTrees(js, minified, [], TreesInOrder(js, minified, chains, kinds[..i])),
                      KindTrees(js, minified, chains, kinds[i]))
            == WithTrees(js, minified, [], TreesInOrder(js, minified, chains, kinds[..i + 1]))
  {
    hide WithTrees, Js.Sound, KindTrees;
    assert kinds[..i + 1][..i] == kinds[..i];
    WithBoth(js, minified, [], TreesInOrder(js, minified, chains, kinds[..i]),
             KindTrees(js, minified, chains, kinds[i]));
  }

  lemma ChainTreesNext(js: Js, minified: map<string, Minified>, before: seq<Items>, chains: seq<string>, kind: string,
                       k: nat)
    requires js.Sound() && k < |chains|
    ensures WithTrees(js, minified, WithTrees(js, minified, before, KindTrees(js, minified, chains[..k], kind)),
                      TreesAt(js, minified, chains[k], kind))
            == WithTrees(js, minified, before, KindTrees(js, minified, chains[..k + 1], kind))
  {
    hide WithTrees, Js.Sound, TreesAt;
    assert chains[..k + 1][..k] == chains[..k];
    WithBoth(js, minified, before, KindTrees(js, minified, chains[..k], kind), TreesAt(js, minified, chains[k], kind));
  }

  ghost predicate KindDone(minified: map<string, Minified>, t: string, done: set<(string, string)>) {
    forall c :: c in minified ==> (c, t) in done
  }

  ghost predicate KindsDone(minified: map<string, Minified>, kinds: seq<string>, done: set<(string, string)>) {
    forall a :: 0 <= a < |kinds| ==> KindDone(minified, kinds[a], done)
  }

  lemma NoKindsDone(js: Js, minified: map<string, Minified>, chains: seq<string>)
    requires js.Sound()
    ensures KindsDone(minified, [], {}) && WithTrees(js, minified, [], TreesInOrder(js, minified, chains, [])) == []
  {
  }

  lemma KindsDoneMore(minified: map<string, Minified>, kinds: seq<string>, i: nat, before: set<(string, string)>,
                      after: set<(string, string)>)
    requires i < |kinds| && KindsDone(minified, kinds[..i], before) && before <= after
             && KindDone(minified, kinds[i], after)
    ensures KindsDone(minified, kinds[..i + 1], after)
  {
    forall a | 0 <= a < i ensures KindDone(minified, kinds[a], after) {
      assert KindDone(minified, kinds[..i][a], before);
    }
  }

  lemma AllPairsDone(minified: map<string, Minified>, all: set<string>, kinds: seq<string>, done: set<(string, string)>)
    requires KindsAre(minified, all) && KindsDone(minified, kinds, done) && forall t :: t in all ==> t in kinds
    ensures forall c, t :: c in minified && t in minified[c] ==> (c, t) in done
  {
    forall c, t | c in minified && t in minified[c] ensures (c, t) in done {
      assert t in all;
      var a :| 0 <= a < |kinds| && kinds[a] == t;
      assert KindDone(minified, kinds[a], done);
    }
  }

  /** Shares the trees of one kind in all chains. */
  method ShareKind(sharer: Sharer, shared0: map<string, Shared>, kind: string, ghost done0: set<(string, string)>)
    returns (shared: map<string, Shared>, ghost done: set<(string, string)>)
    requires sharer.Ok() && Sharing(sharer.js, sharer.minified, shared0, sharer.commonTrees, done0)
    requires forall c :: c in sharer.minified ==> kind in sharer.minified[c]
    modifies sharer
    ensures sharer.Ok() && Sharing(sharer.js, sharer.minified, shared, sharer.commonTrees, done)
    ensures sharer.commonTrees
            == WithTrees(sharer.js, sharer.minified, old(sharer.commonTrees),
                         KindTrees(sharer.js, sharer.minified, sharer.js.keys(sharer.minified.Keys), kind))
    ensures done0 <= done && KindDone(sharer.minified, kind, done)
  {
    hide Sharing, KeyedPallets, ExactPallets, Js.Sound, WithTrees, PalletTrees, KindTrees, Indexed;
    var js, minified := sharer.js, sharer.minified;
    var chains := js.keys(minified.Keys);
    KeysOf(js, minified.Keys);
    shared, done := shared0, done0;
    SharingKeys(js, minified, shared, sharer.commonTrees, done);
    NoChainTrees(js, minified, sharer.commonTrees, kind);
    assert chains[..0] == [];
    for k := 0 to |chains|
      invariant sharer.Ok() && Sharing(js, minified, shared, sharer.commonTrees, done)
      invariant sharer.commonTrees
                == WithTrees(js, minified, old(sharer.commonTrees), KindTrees(js, minified, chains[..k], kind))
      invariant done0 <= done && shared.Keys == minified.Keys
      invariant forall b :: 0 <= b < k ==> (chains[b], kind) in done
    {
      assert chains[k] in chains;
      ghost var before := sharer.commonTrees;
      ChainTreesNext(js, minified, old(sharer.commonTrees), chains, kind, k);
      var r := sharer.ShareObject(minified[chains[k]][kind]);
      SharingMore(js, minified, shared, before, sharer.commonTrees, done, chains[k], kind, r);
      shared := shared[chains[k] := shared[chains[k]][kind := r]];
      done := done + {(chains[k], kind)};
    }
    assert chains[..|chains|] == chains;
    forall c | c in minified ensures (c, kind) in done {
      assert c in chains;
      var b :| 0 <= b < |chains| && chains[b] == c;
    }
  }

  lemma NoChainTrees(js: Js, minified: map<string, Minified>, commonTrees: seq<Items>, kind: string)
    requires js.Sound()
    ensures WithTrees(js, minified, commonTrees, KindTrees(js, minified, [], kind)) == commonTrees
  {
  }

  lemma SharingKeys(js: Js, minified: map<string, Minified>, shared: map<string, Shared>, commonTrees: seq<Items>,
                    done: set<(string, string)>)
    requires js.Sound() && Sharing(js, minified, shared, commonTrees, done)
    ensures shared.Keys == minified.Keys
  {
  }

  lemma ExactDone(js: Js, minified: map<string, Minified>, shared: map<string, Shared>, commonTrees: seq<Items>,
                  done: set<(string, string)>)
    requires js.Sound() && Sharing(js, minified, shared, commonTrees, done)
    requires forall c, t :: c in minified && t in minified[c] ==> (c, t) in done
    ensures KeyedTables(js, commonTrees, minified, shared) && AllExact(js, minified, shared)
  {
    hide ExactPallets, KeyedTables, Js.Sound;
  }

  lemma AllOwn(js: Js, minified: map<string, Minified>, shared: map<string, Shared>)
    requires js.Sound() && shared == map c | c in minified :: OwnTable(minified[c])
    ensures Sharing(js, minified, shared, [], {})
  {
    hide Js.Sound, TreeKey;
    forall c | c in minified ensures KeyedTable(js, [], minified[c], shared[c]) {
      forall t | t in minified[c] ensures KeyedPallets(js, [], minified[c][t], shared[c][t]) {
      }
    }
  }

  // -------------------------------------------------------- when common trees will do

  ghost predicate TreeAt(minified: map<string, Minified>, c: string, t: string, p: string) {
    c in minified && t in minified[c] && p in minified[c][t]
  }

  ghost predicate IsTree(minified: map<string, Minified>, tree: Items) {
    exists c, t, p :: TreeAt(minified, c, t, p) && minified[c][t][p] == tree
  }

  ghost predicate AreTrees(minified: map<string, Minified>, trees: seq<Items>) {
    forall i :: 0 <= i < |trees| ==> IsTree(minified, trees[i])
  }

  /** No two different trees have one key. */
  ghost predicate TreesDiffer(js: Js, minified: map<string, Minified>)
    requires js.Sound()
  {
    forall s, t :: IsTree(minified, s) && IsTree(minified, t) && TreeKey(js, s) == TreeKey(js, t) ==> s == t
  }

  /** Plain names suffice. */
  lemma PlainTreesDiffer(js: Js, minified: map<string, Minified>)
    requires js.Sound() && forall c :: c in minified ==> PlainTrees(minified[c])
    ensures TreesDiffer(js, minified)
  {
    hide TreeKey, Js.Sound;
    forall tree | IsTree(minified, tree) ensures PlainKeys(tree) {
      var c, t, p :| TreeAt(minified, c, t, p) && minified[c][t][p] == tree;
      assert PlainTrees(minified[c]) && PlainBelow(minified[c][t]);
    }
    hide IsTree;
    forall s, t | IsTree(minified, s) && IsTree(minified, t) && TreeKey(js, s) == TreeKey(js, t) ensures s == t {
      TreeKeysDiffer(js, s, t);
    }
  }

  lemma {:induction false} PalletTreesAre(minified: map<string, Minified>, c: string, t: string, keys: seq<string>)
    requires c in minified && t in minified[c]
    ensures AreTrees(minified, PalletTrees(minified[c][t], keys))
  {
    if keys != [] {
      var n := |keys| - 1;
      PalletTreesAre(minified, c, t, keys[..n]);
      if keys[n] in minified[c][t] {
        assert TreeAt(minified, c, t, keys[n]);
      }
    }
  }

  lemma {:induction false} KindTreesAre(js: Js, minified: map<string, Minified>, chains: seq<string>, kind: string)
    ensures AreTrees(minified, KindTrees(js, minified, chains, kind))
  {
    hide IsTree, PalletTrees;
    if chains != [] {
      var n := |chains| - 1;
      KindTreesAre(js, minified, chains[..n], kind);
      if chains[n] in minified && kind in minified[chains[n]] {
        PalletTreesAre(minified, chains[n], kind, js.keys(minified[chains[n]][kind].Keys));
      }
    }
  }

  lemma {:induction false} TreesInOrderAre(js: Js, minified: map<string, Minified>, chains: seq<string>,
                                           kinds: seq<string>)
    ensures AreTrees(minified, TreesInOrder(js, minified, chains, kinds))
  {
    hide IsTree, KindTrees;
    if kinds != [] {
      var n := |kinds| - 1;
      TreesInOrderAre(js, minified, chains, kinds[..n]);
      KindTreesAre(js, minified, chains, kinds[n]);
    }
  }

  /** The common trees have different keys. */
  ghost predicate KeysOnce(js: Js, trees: seq<Items>)
    requires js.Sound()
  {
    forall i, j :: 0 <= i < j < |trees| ==> TreeKey(js, trees[i]) != TreeKey(js, trees[j])
  }

  lemma {:induction false} CommonTreesAre(js: Js, minified: map<string, Minified>, trees: seq<Items>)
    requires js.Sound() && AreTrees(minified, trees)
    ensures AreTrees(minified, WithTrees(js, minified, [], trees)) && KeysOnce(js, WithTrees(js, minified, [], trees))
  {
    hide IsTree, TreeKey, TreeUsages, Js.Sound;
    if trees != [] {
      CommonTreesAre(js, minified, trees[..|trees| - 1]);
    }
  }

  // ------------------------------------------------------------------ decoding

  /** `tree` stands for `items`. */
  ghost predicate StandsFor(commonTrees: seq<Items>, items: Items, tree: Tree) {
    match tree
    case Own(own) => own == items
    case Common(i) => i < |commonTrees| && commonTrees[i] == items
  }

  ghost predicate SharedPallets(commonTrees: seq<Items>, obj: map<string, Items>, r: map<string, Tree>) {
    r.Keys == obj.Keys && forall p :: p in obj ==> StandsFor(commonTrees, obj[p], r[p])
  }

  ghost predicate SharedTable(commonTrees: seq<Items>, obj: Minified, r: Shared) {
    r.Keys == obj.Keys && forall t :: t in obj ==> SharedPallets(commonTrees, obj[t], r[t])
  }

  function TokensInTree(js: Js, tokens: seq<string>, tree: Tree): Tree
    requires js.Sound()
  {
    match tree
    case Own(items) => Own(ReplaceKeys(js, tokens, items))
    case Common(i) => Common(i)
  }

  function TokensInPallets(js: Js, tokens: seq<string>, obj: map<string, Tree>): map<string, Tree>
    requires js.Sound()
  {
    ReplaceKeys(js, tokens, map p | p in obj :: TokensInTree(js, tokens, obj[p]))
  }

  function ReplaceTokens(js: Js, tokens: seq<string>, obj: Shared): Shared
    requires js.Sound()
  {
    ReplaceKeys(js, tokens, map t | t in obj :: TokensInPallets(js, tokens, obj[t]))
  }

  /** None where the decoder would find nothing. */
  function UnwrapTree(js: Js, tokens: seq<string>, commonTrees: seq<Items>, tree: Tree): Option<Items>
    requires js.Sound()
  {
    match tree
    case Own(items) => Some(items)
    case Common(i) => if i < |commonTrees| then Some(ReplaceKeys(js, tokens, commonTrees[i])) else None
  }

  type Descriptors = map<string, map<string, Option<Items>>>

  /** What the emitted code exports for a chain. */
  function GetChainDescriptors(js: Js, tokens: seq<string>, commonTrees: seq<Items>, minified: Shared): Descriptors
    requires js.Sound()
  {
    var obj := ReplaceTokens(js, tokens, minified);
    map t | t in obj :: UnwrapPallets(js, tokens, commonTrees, obj[t])
  }

  function UnwrapPallets(js: Js, tokens: seq<string>, commonTrees: seq<Items>, obj: map<string, Tree>)
    : map<string, Option<Items>>
    requires js.Sound()
  {
    map p | p in obj :: UnwrapTree(js, tokens, commonTrees, obj[p])
  }

  function SomePallets(obj: map<string, Items>): map<string, Option<Items>> {
    map p | p in obj :: Some(obj[p])
  }

  function AsDescriptors(table: Table): Descriptors {
    map t | t in table :: SomePallets(table[t])
  }

  lemma ItemsDecoded(js: Js, code: Code, usages: string -> nat, m: Items, r: Items)
    requires js.Sound() && code.Valid() && EncodedItems(js, code, usages, m, r)
    ensures ReplaceKeys(js, code.tokens, r) == m
  {
    ReplaceKeysIs(js, code, m, r);
  }

  lemma TreeDecoded(js: Js, code: Code, usages: string -> nat, m: Items, r: Items, tree: Tree, commonTrees: seq<Items>)
    requires js.Sound() && code.Valid() && EncodedItems(js, code, usages, m, r) && StandsFor(commonTrees, r, tree)
    ensures UnwrapTree(js, code.tokens, commonTrees, TokensInTree(js, code.tokens, tree)) == Some(m)
  {
    ItemsDecoded(js, code, usages, m, r);
  }

  lemma SameKeysEncoded<V, W, X>(js: Js, code: Code, m: map<string, V>, r: map<string, W>, q: map<string, X>)
    requires KeysEncoded(js, code, m, r) && q.Keys == r.Keys
    ensures KeysEncoded(js, code, m, q)
  {
  }

  lemma PalletsDecoded(js: Js, code: Code, usages: string -> nat, m: map<string, Items>, r: map<string, Items>,
                       q: map<string, Tree>, commonTrees: seq<Items>)
    requires js.Sound() && code.Valid() && EncodedPallets(js, code, usages, m, r) && SharedPallets(commonTrees, r, q)
    ensures UnwrapPallets(js, code.tokens, commonTrees, TokensInPallets(js, code.tokens, q)) == SomePallets(m)
  {
    hide KeysEncoded, EncodedItems, StandsFor, ReplaceKeys, TokensInTree, UnwrapTree, Js.Sound, Code.Valid;
    var replaced := map p | p in q :: TokensInTree(js, code.tokens, q[p]);
    SameKeysEncoded(js, code, m, r, replaced);
    ReplaceKeysIs(js, code, m, replaced);
    forall p | p in m
      ensures UnwrapTree(js, code.tokens, commonTrees, TokensInPallets(js, code.tokens, q)[p]) == Some(m[p])
    {
      PalletDecoded(js, code, usages, m, r, q, commonTrees, p);
    }
  }

  lemma PalletDecoded(js: Js, code: Code, usages: string -> nat, m: map<string, Items>, r: map<string, Items>,
                      q: map<string, Tree>, commonTrees: seq<Items>, p: string)
    requires js.Sound() && code.Valid() && EncodedPallets(js, code, usages, m, r) && SharedPallets(commonTrees, r, q)
             && p in m
    ensures Encode(js, code, p) in q
    ensures UnwrapTree(js, code.tokens, commonTrees, TokensInTree(js, code.tokens, q[Encode(js, code, p)]))
            == Some(m[p])
  {
    EncodedIn(js, code, m, r, p);
    hide KeysEncoded, EncodedItems, StandsFor, TokensInTree, UnwrapTree, Js.Sound, Code.Valid;
    TreeDecoded(js, code, usages, m[p], r[Encode(js, code, p)], q[Encode(js, code, p)], commonTrees);
  }

  lemma EncodedIn<V, W>(js: Js, code: Code, m: map<string, V>, r: map<string, W>, k: string)
    requires KeysEncoded(js, code, m, r) && k in m
    ensures Encode(js, code, k) in r
  {
  }

  /** The decoder undoes the compression. */
  lemma TableDecoded(js: Js, code: Code, usages: string -> nat, table: Table, minified: Minified, shared: Shared,
                     commonTrees: seq<Items>)
    requires js.Sound() && code.Valid() && EncodedTable(js, code, usages, table, minified)
             && SharedTable(commonTrees, minified, shared)
    ensures GetChainDescriptors(js, code.tokens, commonTrees, shared) == AsDescriptors(table)
  {
    hide KeysEncoded, EncodedPallets, SharedPallets, ReplaceKeys, TokensInPallets, UnwrapPallets, SomePallets,
        Js.Sound, Code.Valid;
    var replaced := map t | t in shared :: TokensInPallets(js, code.tokens, shared[t]);
    SameKeysEncoded(js, code, table, minified, replaced);
    ReplaceKeysIs(js, code, table, replaced);
    forall t | t in table
      ensures UnwrapPallets(js, code.tokens, commonTrees, ReplaceTokens(js, code.tokens, shared)[t])
              == SomePallets(table[t])
    {
      EncodedIn(js, code, table, minified, t);
      PalletsDecoded(js, code, usages, table[t], minified[Encode(js, code, t)], shared[Encode(js, code, t)],
                     commonTrees);
    }
  }

  // ------------------------------------------------------------------- all of it

  /** How often a name occurs, at any level. */
  function Usages(tables: map<string, Table>, name: string): nat {
    (if name in tables then 1 else 0)
    + |set c | c in tables && name in tables[c]|
    + |set c, t | c in tables && t in tables[c] && name in tables[c][t] :: (c, t)|
    + |set c, t, p | c in tables && t in tables[c] && p in tables[c][t] && name in tables[c][t][p] :: (c, t, p)|
  }

  /** Going down by the keys of `path`, the last of which is the name, one comes to something in the tables. */
  ghost predicate IsPlace(tables: map<string, Table>, path: seq<string>, name: string) {
    && 1 <= |path| <= 4 && path[|path| - 1] == name && path[0] in tables
    && (|path| > 1 ==> path[1] in tables[path[0]])
    && (|path| > 2 ==> path[2] in tables[path[0]][path[1]])
    && (|path| > 3 ==> path[3] in tables[path[0]][path[1]][path[2]])
  }

  ghost predicate IsPlaceAt(tables: map<string, Table>, path: seq<string>, name: string, depth: nat) {
    |path| == depth && IsPlace(tables, path, name)
  }

  ghost predicate OneToOne<A(!new), B(!new)>(a: set<A>, b: set<B>, f: A -> B) {
    && (forall x :: x in a ==> f(x) in b)
    && (forall x, y :: x in a && y in a && f(x) == f(y) ==> x == y)
    && (forall y :: y in b ==> exists x :: x in a && f(x) == y)
  }

  lemma {:induction false} SameSize<A(!new), B(!new)>(a: set<A>, b: set<B>, f: A -> B)
    requires OneToOne(a, b, f)
    ensures |a| == |b|
  {
    if a != {} {
      var x :| x in a;
      assert f(x) in b;
      forall y | y in b - {f(x)} ensures exists x' :: x' in a - {x} && f(x') == y {
        var x' :| x' in a && f(x') == y;
        assert x' in a - {x};
      }
      SameSize(a - {x}, b - {f(x)}, f);
    } else {
      assert b == {};
    }
  }

  lemma PlacesOfPallets(tables: map<string, Table>, name: string, places: set<seq<string>>)
    requires forall path :: path in places <==> IsPlaceAt(tables, path, name, 3)
    ensures |places| == |set c, t | c in tables && t in tables[c] && name in tables[c][t] :: (c, t)|
  {
    var at := set c, t | c in tables && t in tables[c] && name in tables[c][t] :: (c, t);
    var f := (p: (string, string)) => [p.0, p.1, name];
    forall path | path in places ensures exists p :: p in at && f(p) == path {
      assert (path[0], path[1]) in at && f((path[0], path[1])) == path;
    }
    forall p | p in at ensures f(p) in places {
      assert IsPlaceAt(tables, f(p), name, 3);
    }
    SameSize(at, places, f);
  }

  lemma PlacesOfItems(tables: map<string, Table>, name: string, places: set<seq<string>>)
    requires forall path :: path in places <==> IsPlaceAt(tables, path, name, 4)
    ensures |places|
         == |set c, t, p | c in tables && t in tables[c] && p in tables[c][t] && name in tables[c][t][p] :: (c, t, p)|
  {
    var at := set c, t, p | c in tables && t in tables[c] && p in tables[c][t] && name in tables[c][t][p] :: (c, t, p);
    var f := (q: (string, string, string)) => [q.0, q.1, q.2, name];
    forall path | path in places ensures exists q :: q in at && f(q) == path {
      var q := (path[0], path[1], path[2]);
      assert q in at && f(q) == path;
    }
    forall q | q in at ensures f(q) in places {
      assert IsPlaceAt(tables, f(q), name, 4);
    }
    SameSize(at, places, f);
  }

  lemma PlacesOfKinds(tables: map<string, Table>, name: string, places: set<seq<string>>)
    requires forall path :: path in places <==> IsPlaceAt(tables, path, name, 2)
    ensures |places| == |set c | c in tables && name in tables[c]|
  {
    var at := set c | c in tables && name in tables[c];
    var f := (c: string) => [c, name];
    forall path | path in places ensures exists c :: c in at && f(c) == path {
      assert path[0] in at && f(path[0]) == path;
    }
    forall c | c in at ensures f(c) in places {
      assert IsPlaceAt(tables, f(c), name, 2);
    }
    SameSize(at, places, f);
  }

  lemma PlacesOfChains(tables: map<string, Table>, name: string, places: set<seq<string>>)
    requires forall path :: path in places <==> IsPlaceAt(tables, path, name, 1)
    ensures |places| == if name in tables then 1 else 0
  {
    if name in tables {
      forall path ensures path in places <==> path == [name] {
      }
      assert places == {[name]};
    } else {
      assert places == {};
    }
  }

  /** Of the places those at a depth. */
  ghost function AtDepth(places: set<seq<string>>, depth: nat): set<seq<string>> {
    set path | path in places && |path| == depth
  }

  lemma PlacesAtDepth(tables: map<string, Table>, name: string, places: set<seq<string>>, depth: nat)
    requires forall path :: path in places <==> IsPlace(tables, path, name)
    ensures forall path :: path in AtDepth(places, depth) <==> IsPlaceAt(tables, path, name, depth)
  {
    hide IsPlace;
  }

  lemma AllDepths(tables: map<string, Table>, name: string, places: set<seq<string>>)
    requires forall path :: path in places <==> IsPlace(tables, path, name)
    ensures |places| == |AtDepth(places, 1)| + |AtDepth(places, 2)| + |AtDepth(places, 3)| + |AtDepth(places, 4)|
  {
    forall path | path in places ensures 1 <= |path| <= 4 {
      assert IsPlace(tables, path, name);
    }
    hide IsPlace;
    assert places == AtDepth(places, 1) + AtDepth(places, 2) + AtDepth(places, 3) + AtDepth(places, 4);
  }

  /** The usages of a name are the places where it occurs, at any level. */
  lemma UsagesArePlaces(tables: map<string, Table>, name: string, places: set<seq<string>>)
    requires forall path :: path in places <==> IsPlace(tables, path, name)
    ensures Usages(tables, name) == |places|
  {
    hide IsPlace, IsPlaceAt, AtDepth;
    PlacesAtDepth(tables, name, places, 1);
    PlacesAtDepth(tables, name, places, 2);
    PlacesAtDepth(tables, name, places, 3);
    PlacesAtDepth(tables, name, places, 4);
    PlacesOfChains(tables, name, AtDepth(places, 1));
    PlacesOfKinds(tables, name, AtDepth(places, 2));
    PlacesOfPallets(tables, name, AtDepth(places, 3));
    PlacesOfItems(tables, name, AtDepth(places, 4));
    AllDepths(tables, name, places);
  }

  ghost predicate SameKinds(tables: map<string, Table>) {
    forall c, d :: c in tables && d in tables ==> tables[c].Keys == tables[d].Keys
  }

  ghost predicate MinifiedTables(js: Js, code: Code, usages: string -> nat, tables: map<string, Table>,
                                 small: map<string, Minified>) {
    small.Keys <= tables.Keys && forall c :: c in small ==> MinifiedTable(js, code, usages, tables[c], small[c])
  }

  lemma TableAdded(js: Js, before: Code, code: Code, usages: string -> nat, tables: map<string, Table>,
                   small: map<string, Minified>, c: string, r: Minified)
    requires js.Sound() && before.Valid() && code.Valid() && Extends(before, code, usages)
    requires MinifiedTables(js, before, usages, tables, small) && c in tables
             && MinifiedTable(js, code, usages, tables[c], r)
    ensures MinifiedTables(js, code, usages, tables, small[c := r])
  {
    hide MinifiedTable;
    forall d | d in small ensures MinifiedTable(js, code, usages, tables[d], small[d]) {
      MinifiedLater(js, before, code, usages, tables[d], small[d]);
    }
  }

  lemma MinifiedLater(js: Js, code: Code, later: Code, usages: string -> nat, m: Table, r: Minified)
    requires js.Sound() && code.Valid() && later.Valid() && Extends(code, later, usages)
             && MinifiedTable(js, code, usages, m, r)
    ensures MinifiedTable(js, later, usages, m, r)
  {
    hide EncodedTable, PlainTable, NamedTable, KeysImage, HandledTable, Js.Sound, Code.Valid;
    HandledTableLater(code, later, usages, m);
    assert AllHandled(code, usages, m) by { KindsHandled(code, usages, m); }
    ImageLater(js, code, later, usages, m, r);
    if NamedTable(js, usages, m) {
      TableLater(js, code, later, usages, m, r);
    }
  }

  lemma KindsHandled(code: Code, usages: string -> nat, m: Table)
    requires HandledTable(code, usages, m)
    ensures AllHandled(code, usages, m)
  {
  }

  lemma SameImages<V, W, X, Y>(js: Js, code: Code, m: map<string, V>, r: map<string, W>, m': map<string, X>,
                               r': map<string, Y>)
    requires KeysImage(js, code, m, r) && KeysImage(js, code, m', r') && m.Keys == m'.Keys
    ensures r.Keys == r'.Keys
  {
    forall s ensures s in r <==> s in r' {
      if s in r {
        var k :| k in m && s == Encode(js, code, k);
        assert k in m';
      }
      if s in r' {
        var k :| k in m' && s == Encode(js, code, k);
        assert k in m;
      }
    }
  }

  /** All chains have the same minified kinds. */
  lemma MinifiedShape(js: Js, code: Code, usages: string -> nat, tables: map<string, Table>,
                      small: map<string, Minified>)
    requires SameKinds(tables) && MinifiedTables(js, code, usages, tables, small)
    ensures forall c :: c in small ==> KindsAre(small, small[c].Keys)
  {
    hide KeysImage, HandledTable, EncodedTable, NamedTable, PlainTable;
    forall c, d | c in small && d in small ensures small[c].Keys == small[d].Keys {
      SameImages(js, code, tables[c], small[c], tables[d], small[d]);
    }
  }

  /** All chains share the tokens. */
  method MinifyTables(js: Js, tables: map<string, Table>, usages: string -> nat)
    returns (small: map<string, Minified>, tokens: seq<string>, ghost code: Code)
    requires js.Sound() && forall k :: k in js.inherited ==> usages(k) == 0
    ensures code.Valid() && code.tokens == tokens && forall k :: k in code.index ==> usages(k) > 1
    ensures small.Keys == tables.Keys && MinifiedTables(js, code, usages, tables, small)
  {
    hide MinifiedTable, MinifiedTables, Code.Valid, Extends, Js.Sound;
    var tokenizer := new Tokenizer(js, usages);
    NoTables(js, tokenizer.Now(), usages, tables);
    var keys := js.keys(tables.Keys);
    KeysOf(js, tables.Keys);
    small := map[];
    for i := 0 to |keys|
      invariant tokenizer.Ok() && fresh(tokenizer) && tokenizer.js == js && tokenizer.usages == usages
      invariant small.Keys <= tables.Keys && forall k :: 0 <= k < i ==> keys[k] in small
      invariant MinifiedTables(js, tokenizer.Now(), usages, tables, small)
    {
      assert keys[i] in keys;
      ghost var before := tokenizer.Now();
      var r := tokenizer.MinifyTable(tables[keys[i]]);
      TableAdded(js, before, tokenizer.Now(), usages, tables, small, keys[i], r);
      small := small[keys[i] := r];
    }
    forall c | c in tables ensures c in small {
      var k :| 0 <= k < |keys| && keys[k] == c;
    }
    tokens, code := tokenizer.tokens, tokenizer.Now();
    Frequent(code, usages);
  }

  lemma NoTables(js: Js, code: Code, usages: string -> nat, tables: map<string, Table>)
    requires code == Code([], map[])
    ensures code.Valid() && Extends(code, code, usages) && MinifiedTables(js, code, usages, tables, map[])
  {
  }

  lemma Frequent(code: Code, usages: string -> nat)
    requires Extends(Code([], map[]), code, usages)
    ensures forall k :: k in code.index ==> usages(k) > 1
  {
  }

  /** The name is one of a table, at any level. */
  ghost predicate Occurs(table: Table, name: string) {
    || name in table
    || (exists t :: t in table && name in table[t])
    || (exists t, p :: t in table && p in table[t] && name in table[t][p])
  }

  ghost predicate AllSurvive(js: Js, usages: string -> nat, table: Table) {
    forall name :: Occurs(table, name) ==> Survives(js, usages, name)
  }

  lemma SurvivingIsNamed(js: Js, usages: string -> nat, table: Table)
    requires AllSurvive(js, usages, table)
    ensures NamedTable(js, usages, table)
  {
    forall t | t in table ensures Survives(js, usages, t) && NamedPallets(js, usages, table[t]) {
      assert Occurs(table, t);
      forall p | p in table[t] ensures Survives(js, usages, p) && NamedItems(js, usages, table[t][p]) {
        assert Occurs(table, p);
        forall k | k in table[t][p] ensures Survives(js, usages, k) {
          assert Occurs(table, k);
        }
      }
    }
  }

  lemma HandledHasToken<V>(code: Code, usages: string -> nat, m: map<string, V>, name: string)
    requires code.Valid() && AllHandled(code, usages, m) && name in m && usages(name) > 1
    ensures name in code.tokens
  {
    assert code.tokens[code.index[name]] == name;
  }

  /** Every name of a table that occurs more than once has a token. */
  lemma FrequentHasToken(code: Code, usages: string -> nat, table: Table, name: string)
    requires code.Valid() && HandledTable(code, usages, table) && Occurs(table, name) && usages(name) > 1
    ensures name in code.tokens
  {
    hide AllHandled, Code.Valid;
    if name in table {
      HandledHasToken(code, usages, table, name);
    } else if t :| t in table && name in table[t] {
      assert HandledPallets(code, usages, table[t]);
      HandledHasToken(code, usages, table[t], name);
    } else {
      var t, p :| t in table && p in table[t] && name in table[t][p];
      assert HandledPallets(code, usages, table[t]);
      HandledHasToken(code, usages, table[t][p], name);
    }
  }

  // ------------------------------------------------------------------- lost names

  /** No key of the object is decoded to the name: a numeral never is, an inherited name only from itself. */
  ghost predicate Unreturned<V>(js: Js, tokens: seq<string>, obj: map<string, V>, name: string) {
    name !in tokens && (js.number(name) != NaN || (name in js.inherited && OwnKeys(js, obj)))
  }

  lemma {:induction false} NeverDecoded<V>(js: Js, tokens: seq<string>, obj: map<string, V>, keys: seq<string>,
                                           name: string)
    requires js.Sound() && Unreturned(js, tokens, obj, name) && forall k :: k in keys ==> k in obj
    ensures name !in FromKeys(js, tokens, obj, keys)
  {
    if keys != [] {
      NeverDecoded(js, tokens, obj, keys[..|keys| - 1], name);
      NeverDecodedKey(js, tokens, obj, keys[|keys| - 1], name);
    }
  }

  lemma NeverDecodedKey<V>(js: Js, tokens: seq<string>, obj: map<string, V>, key: string, name: string)
    requires js.Sound() && Unreturned(js, tokens, obj, name) && key in obj
    ensures DecodeKey(js, tokens, key) != name
  {
  }

  lemma NotInDecoded<V>(js: Js, tokens: seq<string>, obj: map<string, V>, name: string)
    requires js.Sound() && Unreturned(js, tokens, obj, name)
    ensures name !in ReplaceKeys(js, tokens, obj)
  {
    KeysOf(js, obj.Keys);
    NeverDecoded(js, tokens, obj, js.keys(obj.Keys), name);
  }

  ghost predicate TreeUnreturned(js: Js, tokens: seq<string>, commonTrees: seq<Items>, tree: Tree, name: string) {
    match tree
    case Own(items) => Unreturned(js, tokens, items, name)
    case Common(i) => i < |commonTrees| ==> Unreturned(js, tokens, commonTrees[i], name)
  }

  lemma NotInTree(js: Js, tokens: seq<string>, commonTrees: seq<Items>, tree: Tree, name: string)
    requires js.Sound() && TreeUnreturned(js, tokens, commonTrees, tree, name)
    ensures var items := UnwrapTree(js, tokens, commonTrees, TokensInTree(js, tokens, tree));
            items.Some? ==> name !in items.value
  {
    match tree
    case Own(items) => NotInDecoded(js, tokens, items, name);
    case Common(i) =>
      if i < |commonTrees| {
        NotInDecoded(js, tokens, commonTrees[i], name);
      }
  }

  ghost predicate PalletsUnreturned(js: Js, tokens: seq<string>, commonTrees: seq<Items>, obj: map<string, Tree>,
                                    name: string) {
    Unreturned(js, tokens, obj, name) && forall p :: p in obj ==> TreeUnreturned(js, tokens, commonTrees, obj[p], name)
  }

  ghost predicate TableUnreturned(js: Js, tokens: seq<string>, commonTrees: seq<Items>, obj: Shared, name: string) {
    Unreturned(js, tokens, obj, name) && forall t :: t in obj ==>
        PalletsUnreturned(js, tokens, commonTrees, obj[t], name)
  }

  /** What is decoded below a kind and a pallet comes from a tree. */
  lemma {:induction false} DecodedFrom<V>(js: Js, tokens: seq<string>, obj: map<string, V>, keys: seq<string>,
                                          name: string) returns (key: string)
    requires (forall k :: k in keys ==> k in obj) && name in FromKeys(js, tokens, obj, keys)
    ensures key in obj && FromKeys(js, tokens, obj, keys)[name] == obj[key]
  {
    var n := |keys| - 1;
    assert keys[n] in keys;
    if DecodeKey(js, tokens, keys[n]) == name {
      key := keys[n];
    } else {
      key := DecodedFrom(js, tokens, obj, keys[..n], name);
    }
  }

  lemma ReplacedFrom<V>(js: Js, tokens: seq<string>, obj: map<string, V>, name: string) returns (key: string)
    requires js.Sound() && name in ReplaceKeys(js, tokens, obj)
    ensures key in obj && ReplaceKeys(js, tokens, obj)[name] == obj[key]
  {
    KeysOf(js, obj.Keys);
    key := DecodedFrom(js, tokens, obj, js.keys(obj.Keys), name);
  }

  /** A table with such a name does not come back. */
  lemma NameIsLost(js: Js, tokens: seq<string>, commonTrees: seq<Items>, minified: Shared, table: Table, name: string)
    requires js.Sound() && TableUnreturned(js, tokens, commonTrees, minified, name) && Occurs(table, name)
    ensures GetChainDescriptors(js, tokens, commonTrees, minified) != AsDescriptors(table)
  {
    var r := GetChainDescriptors(js, tokens, commonTrees, minified);
    hide Js.Sound;
    if name in table {
      NotAKind(js, tokens, commonTrees, minified, name);
      DescriptorsHave(table, name);
    } else if t :| t in table && name in table[t] {
      DescriptorsHave(table, t);
      if t in r { NotInKind(js, tokens, commonTrees, minified, t, name); }
    } else {
      var t, p :| t in table && p in table[t] && name in table[t][p];
      DescriptorsHave(table, t);
      if t in r { NotInKind(js, tokens, commonTrees, minified, t, name); }
    }
    hide *;
  }

  /** A table with a numeral that has no token is not decoded, whatever it was compressed to. */
  lemma NumeralIsLost(js: Js, tokens: seq<string>, commonTrees: seq<Items>, minified: Shared, table: Table,
                      name: string)
    requires js.Sound() && js.number(name) != NaN && name !in tokens && Occurs(table, name)
    ensures GetChainDescriptors(js, tokens, commonTrees, minified) != AsDescriptors(table)
  {
    NameIsLost(js, tokens, commonTrees, minified, table, name);
  }

  ghost predicate OwnTrees(js: Js, trees: seq<Items>) {
    forall i :: 0 <= i < |trees| ==> OwnKeys(js, trees[i])
  }

  /** Nor is one with a name that every object has. */
  lemma InheritedIsLost(js: Js, tokens: seq<string>, commonTrees: seq<Items>, small: Minified, shared: Shared,
                        table: Table, name: string)
    requires js.Sound() && KeyedTable(js, commonTrees, small, shared)
    requires OwnTableKeys(js, small) && OwnTrees(js, commonTrees)
    requires name in js.inherited && name !in tokens && Occurs(table, name)
    ensures GetChainDescriptors(js, tokens, commonTrees, shared) != AsDescriptors(table)
  {
    hide Js.Sound, Occurs, TreeKey, GetChainDescriptors, AsDescriptors;
    forall t | t in shared ensures PalletsUnreturned(js, tokens, commonTrees, shared[t], name) {
      assert KeyedPallets(js, commonTrees, small[t], shared[t]) && OwnPalletKeys(js, small[t]);
      forall p | p in shared[t] ensures TreeUnreturned(js, tokens, commonTrees, shared[t][p], name) {
        assert KeyedFor(js, commonTrees, small[t][p], shared[t][p]);
      }
    }
    NameIsLost(js, tokens, commonTrees, shared, table, name);
  }

  /** A name that does not survive is lost. */
  lemma DoesNotSurvive(js: Js, code: Code, usages: string -> nat, table: Table, small: Minified, shared: Shared,
                       commonTrees: seq<Items>, name: string)
    requires js.Sound() && code.Valid() && (forall k :: k in code.index ==> usages(k) > 1)
    requires KeyedTable(js, commonTrees, small, shared) && OwnTableKeys(js, small) && OwnTrees(js, commonTrees)
    requires Occurs(table, name) && !Survives(js, usages, name)
    ensures GetChainDescriptors(js, code.tokens, commonTrees, shared) != AsDescriptors(table)
  {
    TokensFrequent(code, usages);
    hide Js.Sound, Code.Valid, KeyedTable, OwnTableKeys, OwnTrees, Occurs, GetChainDescriptors, AsDescriptors;
    if js.number(name) != NaN {
      NumeralIsLost(js, code.tokens, commonTrees, shared, table, name);
    } else {
      InheritedIsLost(js, code.tokens, commonTrees, small, shared, table, name);
    }
  }

  lemma DescriptorsHave(table: Table, t: string)
    requires t in table
    ensures t in AsDescriptors(table) && AsDescriptors(table)[t].Keys == table[t].Keys
    ensures forall p :: p in table[t] ==> AsDescriptors(table)[t][p] == Some(table[t][p])
  {
  }

  lemma NotAKind(js: Js, tokens: seq<string>, commonTrees: seq<Items>, minified: Shared, name: string)
    requires js.Sound() && Unreturned(js, tokens, minified, name)
    ensures name !in GetChainDescriptors(js, tokens, commonTrees, minified)
  {
    var kinds := map t | t in minified :: TokensInPallets(js, tokens, minified[t]);
    NotInDecoded(js, tokens, kinds, name);
  }

  lemma NotInKind(js: Js, tokens: seq<string>, commonTrees: seq<Items>, minified: Shared, t: string, name: string)
    requires js.Sound() && TableUnreturned(js, tokens, commonTrees, minified, name)
    requires t in GetChainDescriptors(js, tokens, commonTrees, minified)
    ensures var pallets := GetChainDescriptors(js, tokens, commonTrees, minified)[t];
            name !in pallets && forall p :: p in pallets && pallets[p].Some? ==> name !in pallets[p].value
  {
    hide ReplaceKeys, Js.Sound, UnwrapTree, TokensInTree;
    var kinds := map s | s in minified :: TokensInPallets(js, tokens, minified[s]);
    var s := ReplacedFrom(js, tokens, kinds, t);
    assert PalletsUnreturned(js, tokens, commonTrees, minified[s], name);
    var trees := map q | q in minified[s] :: TokensInTree(js, tokens, minified[s][q]);
    NotInDecoded(js, tokens, trees, name);
    var pallets := GetChainDescriptors(js, tokens, commonTrees, minified)[t];
    assert pallets == UnwrapPallets(js, tokens, commonTrees, ReplaceKeys(js, tokens, trees));
    forall p | p in pallets && pallets[p].Some? ensures name !in pallets[p].value {
      var q := ReplacedFrom(js, tokens, trees, p);
      NotInTree(js, tokens, commonTrees, minified[s][q], name);
    }
  }

  /** Whether a chain's table comes back. */
  ghost predicate ComesBack(js: Js, tokens: seq<string>, commonTrees: seq<Items>, minified: Shared, table: Table)
    requires js.Sound()
  {
    GetChainDescriptors(js, tokens, commonTrees, minified) == AsDescriptors(table)
  }

  lemma ComesBackIff(js: Js, code: Code, usages: string -> nat, table: Table, small: Minified, shared: Shared,
                     commonTrees: seq<Items>)
    requires js.Sound() && code.Valid() && (forall k :: k in code.index ==> usages(k) > 1)
    requires MinifiedTable(js, code, usages, table, small) && SharedTable(commonTrees, small, shared)
    requires OwnTrees(js, commonTrees)
    ensures ComesBack(js, code.tokens, commonTrees, shared, table) <==> AllSurvive(js, usages, table)
  {
    hide GetChainDescriptors, AsDescriptors, SharedTable, EncodedTable, NamedTable, HandledTable, PlainTable,
        KeysImage, Occurs, Js.Sound;
    if AllSurvive(js, usages, table) {
      SurvivingIsNamed(js, usages, table);
      TableDecoded(js, code, usages, table, small, shared, commonTrees);
    } else {
      var name :| Occurs(table, name) && !Survives(js, usages, name);
      SharedIsKeyed(js, commonTrees, small, shared);
      DoesNotSurvive(js, code, usages, table, small, shared, commonTrees, name);
    }
  }

  lemma SharedIsKeyed(js: Js, commonTrees: seq<Items>, small: Minified, shared: Shared)
    requires js.Sound() && SharedTable(commonTrees, small, shared)
    ensures KeyedTable(js, commonTrees, small, shared)
  {
    hide Js.Sound, TreeKey;
    forall t | t in small ensures KeyedPallets(js, commonTrees, small[t], shared[t]) {
      assert SharedPallets(commonTrees, small[t], shared[t]);
      forall p | p in small[t] ensures KeyedFor(js, commonTrees, small[t][p], shared[t][p]) {
        assert StandsFor(commonTrees, small[t][p], shared[t][p]);
      }
    }
  }

  // ------------------------------------------------------------------- lost trees

  ghost predicate SharedTables(commonTrees: seq<Items>, obj: map<string, Minified>, r: map<string, Shared>) {
    r.Keys == obj.Keys && forall c :: c in obj ==> SharedTable(commonTrees, obj[c], r[c])
  }

  lemma SharedAt(commonTrees: seq<Items>, obj: map<string, Minified>, r: map<string, Shared>, c: string, t: string,
                 p: string)
    requires SharedTables(commonTrees, obj, r) && TreeAt(obj, c, t, p)
    ensures c in r && t in r[c] && p in r[c][t] && StandsFor(commonTrees, obj[c][t][p], r[c][t][p])
  {
    assert SharedTable(commonTrees, obj[c], r[c]) && SharedPallets(commonTrees, obj[c][t], r[c][t]);
  }

  lemma KeyedAt(js: Js, commonTrees: seq<Items>, obj: map<string, Minified>, r: map<string, Shared>, c: string,
                t: string, p: string)
    requires js.Sound() && KeyedTables(js, commonTrees, obj, r) && TreeAt(obj, c, t, p)
    ensures c in r && t in r[c] && p in r[c][t] && KeyedFor(js, commonTrees, obj[c][t][p], r[c][t][p])
  {
    hide Js.Sound, TreeKey;
    assert KeyedTable(js, commonTrees, obj[c], r[c]) && KeyedPallets(js, commonTrees, obj[c][t], r[c][t]);
  }

  /** Where every tree has what stands for it, the tables are shared rightly. */
  lemma SharedEverywhere(js: Js, commonTrees: seq<Items>, obj: map<string, Minified>, r: map<string, Shared>)
    requires js.Sound() && KeyedTables(js, commonTrees, obj, r)
    requires forall c, t, p :: TreeAt(obj, c, t, p) && c in r && t in r[c] && p in r[c][t] ==>
               StandsFor(commonTrees, obj[c][t][p], r[c][t][p])
    ensures SharedTables(commonTrees, obj, r)
  {
    hide Js.Sound, TreeKey, KeyedFor;
    forall c | c in obj ensures SharedTable(commonTrees, obj[c], r[c]) {
      assert KeyedTable(js, commonTrees, obj[c], r[c]);
      forall t | t in obj[c] ensures SharedPallets(commonTrees, obj[c][t], r[c][t]) {
        assert KeyedPallets(js, commonTrees, obj[c][t], r[c][t]);
        forall p | p in obj[c][t] ensures StandsFor(commonTrees, obj[c][t][p], r[c][t][p]) {
          assert TreeAt(obj, c, t, p);
        }
      }
    }
  }

  lemma SharedIfDiffer(js: Js, commonTrees: seq<Items>, obj: map<string, Minified>, r: map<string, Shared>)
    requires js.Sound() && KeyedTables(js, commonTrees, obj, r) && AreTrees(obj, commonTrees) && TreesDiffer(js, obj)
    ensures SharedTables(commonTrees, obj, r)
  {
    hide KeyedTables, TreesDiffer, AreTrees, Js.Sound, TreeKey, KeyedFor, StandsFor;
    forall c, t, p | TreeAt(obj, c, t, p) && c in r && t in r[c] && p in r[c][t]
      ensures StandsFor(commonTrees, obj[c][t][p], r[c][t][p])
    {
      KeyedAt(js, commonTrees, obj, r, c, t, p);
      assert IsTree(obj, obj[c][t][p]);
      KeyedIsShared(js, commonTrees, obj, obj[c][t][p], r[c][t][p]);
    }
    SharedEverywhere(js, commonTrees, obj, r);
  }

  lemma KeyedIsShared(js: Js, commonTrees: seq<Items>, obj: map<string, Minified>, items: Items, tree: Tree)
    requires js.Sound() && AreTrees(obj, commonTrees) && TreesDiffer(js, obj)
    requires IsTree(obj, items) && KeyedFor(js, commonTrees, items, tree)
    ensures StandsFor(commonTrees, items, tree)
  {
    hide Js.Sound, TreeKey, IsTree;
  }

  /** Two trees with one key at different places: both are shared. */
  lemma TwiceUsed(js: Js, minified: map<string, Minified>, c: string, t: string, p: string, d: string, u: string,
                  q: string)
    requires js.Sound() && TreeAt(minified, c, t, p) && TreeAt(minified, d, u, q) && (c, t, p) != (d, u, q)
    requires TreeKey(js, minified[c][t][p]) == TreeKey(js, minified[d][u][q])
    ensures TreeUsages(js, minified, TreeKey(js, minified[c][t][p])) > 1
  {
    var key := TreeKey(js, minified[c][t][p]);
    hide TreeKey, Js.Sound;
    var places := set c, t, p |
      c in minified && t in minified[c] && p in minified[c][t] && TreeKey(js, minified[c][t][p]) == key :: (c, t, p);
    assert {(c, t, p), (d, u, q)} <= places;
    SubsetIsSmaller({(c, t, p), (d, u, q)}, places);
  }

  lemma CommonAt(js: Js, minified: map<string, Minified>, shared: map<string, Shared>, c: string, t: string, p: string)
    requires js.Sound() && AllExact(js, minified, shared) && TreeAt(minified, c, t, p)
    requires c in shared && t in shared[c] && p in shared[c][t]
    ensures shared[c][t][p].Common? <==> TreeUsages(js, minified, TreeKey(js, minified[c][t][p])) > 1
  {
    hide Js.Sound, TreeKey, TreeUsages;
    assert ExactPallets(js, minified, minified[c][t], shared[c][t], minified[c][t].Keys);
  }

  /** If all trees have what stands for them, then no two of them have one key. */
  lemma DifferIfShared(js: Js, commonTrees: seq<Items>, obj: map<string, Minified>, r: map<string, Shared>)
    requires js.Sound() && KeyedTables(js, commonTrees, obj, r) && KeysOnce(js, commonTrees)
    requires AllExact(js, obj, r) && SharedTables(commonTrees, obj, r)
    ensures TreesDiffer(js, obj)
  {
    hide Js.Sound, TreeKey, KeyedTables, AllExact, SharedTables, TreeUsages;
    forall x, y | IsTree(obj, x) && IsTree(obj, y) && TreeKey(js, x) == TreeKey(js, y) ensures x == y {
      var c, t, p :| TreeAt(obj, c, t, p) && obj[c][t][p] == x;
      var d, u, q :| TreeAt(obj, d, u, q) && obj[d][u][q] == y;
      if (c, t, p) != (d, u, q) {
        TwiceUsed(js, obj, c, t, p, d, u, q);
        SharedAt(commonTrees, obj, r, c, t, p);
        SharedAt(commonTrees, obj, r, d, u, q);
        CommonAt(js, obj, r, c, t, p);
        CommonAt(js, obj, r, d, u, q);
        assert commonTrees[r[c][t][p].idx] == x && commonTrees[r[d][u][q].idx] == y;
      }
    }
  }

  /** What a tree was encoded to. */
  lemma EncodedOnce(js: Js, code: Code, usages: string -> nat, m: Items, r: Items, r': Items)
    requires EncodedItems(js, code, usages, m, r) && EncodedItems(js, code, usages, m, r')
    ensures r == r'
  {
    hide DecodeKey, Encode, Sticks;
    forall s | s in r ensures s in r' && r[s] == r'[s] {
      var k := DecodeKey(js, code.tokens, s);
      assert k in m && Encode(js, code, k) == s;
    }
    forall s | s in r' ensures s in r {
      var k := DecodeKey(js, code.tokens, s);
      assert k in m && Encode(js, code, k) == s;
    }
  }

  /** Every tree of an encoded table encodes one of the table. */
  lemma EncodedFrom(js: Js, code: Code, usages: string -> nat, table: Table, small: Minified, t': string, p': string)
      returns (t: string, p: string)
    requires EncodedTable(js, code, usages, table, small) && t' in small && p' in small[t']
    ensures t in table && p in table[t] && t' == Encode(js, code, t) && p' == Encode(js, code, p)
    ensures EncodedItems(js, code, usages, table[t][p], small[t'][p'])
  {
    hide EncodedItems;
    t := DecodeKey(js, code.tokens, t');
    assert EncodedPallets(js, code, usages, table[t], small[t']);
    p := DecodeKey(js, code.tokens, p');
  }

  /** What the decoder makes of the tree of a pallet. */
  lemma DecodedAt(js: Js, code: Code, usages: string -> nat, table: Table, small: Minified, shared: Shared,
                  commonTrees: seq<Items>, t: string, p: string)
    requires js.Sound() && code.Valid() && EncodedTable(js, code, usages, table, small)
    requires KeyedTable(js, commonTrees, small, shared) && t in table && p in table[t]
    ensures Encode(js, code, t) in shared && Encode(js, code, p) in shared[Encode(js, code, t)]
    ensures var r := GetChainDescriptors(js, code.tokens, commonTrees, shared);
            && t in r && p in r[t]
            && r[t][p] == UnwrapTree(js, code.tokens, commonTrees,
                                     TokensInTree(js, code.tokens, shared[Encode(js, code, t)][Encode(js, code, p)]))
  {
    hide KeysEncoded, KeyedPallets, ReplaceKeys, Encode, Js.Sound, Code.Valid, UnwrapTree, TokensInTree;
    EncodedIn(js, code, table, small, t);
    var kinds := map s | s in shared :: TokensInPallets(js, code.tokens, shared[s]);
    SameKeysEncoded(js, code, table, small, kinds);
    ReplaceKeysIs(js, code, table, kinds);
    hide EncodedTable, KeyedTable, ReplaceTokens;
    DecodedPallet(js, code, usages, table[t], small[Encode(js, code, t)], shared[Encode(js, code, t)], commonTrees, p);
    KindOfDescriptors(js, code.tokens, commonTrees, shared, t);
  }

  lemma KindOfDescriptors(js: Js, tokens: seq<string>, commonTrees: seq<Items>, shared: Shared, t: string)
    requires js.Sound() && t in ReplaceTokens(js, tokens, shared)
    ensures t in GetChainDescriptors(js, tokens, commonTrees, shared)
    ensures GetChainDescriptors(js, tokens, commonTrees, shared)[t]
            == UnwrapPallets(js, tokens, commonTrees, ReplaceTokens(js, tokens, shared)[t])
  {
  }

  lemma DecodedPallet(js: Js, code: Code, usages: string -> nat, m: map<string, Items>, r: map<string, Items>,
                      q: map<string, Tree>, commonTrees: seq<Items>, p: string)
    requires js.Sound() && code.Valid() && EncodedPallets(js, code, usages, m, r)
    requires KeyedPallets(js, commonTrees, r, q) && p in m
    ensures Encode(js, code, p) in q
    ensures var pallets := UnwrapPallets(js, code.tokens, commonTrees, TokensInPallets(js, code.tokens, q));
            && p in pallets
            && pallets[p]
               == UnwrapTree(js, code.tokens, commonTrees, TokensInTree(js, code.tokens, q[Encode(js, code, p)]))
  {
    hide KeysEncoded, KeyedFor, ReplaceKeys, Encode, Js.Sound, Code.Valid, UnwrapTree, TokensInTree;
    EncodedIn(js, code, m, r, p);
    var trees := map s | s in q :: TokensInTree(js, code.tokens, q[s]);
    SameKeysEncoded(js, code, m, r, trees);
    ReplaceKeysIs(js, code, m, trees);
  }

  /** All chains are encoded one for one. */
  ghost predicate EncodedTables(js: Js, code: Code, usages: string -> nat, tables: map<string, Table>,
                                small: map<string, Minified>) {
    small.Keys == tables.Keys && forall c :: c in tables ==> EncodedTable(js, code, usages, tables[c], small[c])
  }

  /** A common tree in the place of another is noticed by the decoder. */
  lemma SharedIfBack(js: Js, code: Code, usages: string -> nat, tables: map<string, Table>,
                     small: map<string, Minified>,
                     shared: map<string, Shared>, commonTrees: seq<Items>)
    requires js.Sound() && code.Valid() && EncodedTables(js, code, usages, tables, small)
    requires KeyedTables(js, commonTrees, small, shared) && AreTrees(small, commonTrees)
    requires forall c :: c in tables ==> c in shared && ComesBack(js, code.tokens, commonTrees, shared[c], tables[c])
    ensures SharedTables(commonTrees, small, shared)
  {
    hide Js.Sound, Code.Valid, KeyedTables, TreeKey, EncodedTable, ComesBack, KeyedFor, StandsFor;
    forall c, t, p | TreeAt(small, c, t, p) && c in shared && t in shared[c] && p in shared[c][t]
      ensures StandsFor(commonTrees, small[c][t][p], shared[c][t][p])
    {
      KeyedAt(js, commonTrees, small, shared, c, t, p);
      StandsIfBack(js, code, usages, tables, small, shared, commonTrees, c, t, p);
    }
    hide EncodedTables;
    SharedEverywhere(js, commonTrees, small, shared);
  }

  lemma StandsIfBack(js: Js, code: Code, usages: string -> nat, tables: map<string, Table>,
                     small: map<string, Minified>,
                     shared: map<string, Shared>, commonTrees: seq<Items>, c: string, t': string, p': string)
    requires js.Sound() && code.Valid() && EncodedTables(js, code, usages, tables, small)
    requires KeyedTables(js, commonTrees, small, shared) && AreTrees(small, commonTrees) && TreeAt(small, c, t', p')
    requires c in shared && t' in shared[c] && p' in shared[c][t']
    requires KeyedFor(js, commonTrees, small[c][t'][p'], shared[c][t'][p'])
    requires ComesBack(js, code.tokens, commonTrees, shared[c], tables[c])
    ensures StandsFor(commonTrees, small[c][t'][p'], shared[c][t'][p'])
  {
    hide Js.Sound, Code.Valid, TreeKey, EncodedTable, EncodedItems, ReplaceKeys, GetChainDescriptors;
    var t, p := EncodedFrom(js, code, usages, tables[c], small[c], t', p');
    assert KeyedTable(js, commonTrees, small[c], shared[c]);
    hide KeyedTables, KeyedTable;
    DecodedAt(js, code, usages, tables[c], small[c], shared[c], commonTrees, t, p);
    DescriptorsHave(tables[c], t);
    hide AsDescriptors;
    if shared[c][t'][p'].Common? {
      var i := shared[c][t'][p'].idx;
      assert ReplaceKeys(js, code.tokens, commonTrees[i]) == tables[c][t][p];
      assert IsTree(small, commonTrees[i]);
      CommonIsEncoded(js, code, usages, tables, small, commonTrees[i]);
      EncodedOnce(js, code, usages, tables[c][t][p], small[c][t'][p'], commonTrees[i]);
    }
  }

  lemma CommonIsEncoded(js: Js, code: Code, usages: string -> nat, tables: map<string, Table>,
                        small: map<string, Minified>, tree: Items)
    requires js.Sound() && code.Valid() && EncodedTables(js, code, usages, tables, small) && IsTree(small, tree)
    ensures EncodedItems(js, code, usages, ReplaceKeys(js, code.tokens, tree), tree)
  {
    hide Js.Sound, Code.Valid, EncodedTable, EncodedItems, ReplaceKeys;
    var d, u', q' :| TreeAt(small, d, u', q') && small[d][u'][q'] == tree;
    var u, q := EncodedFrom(js, code, usages, tables[d], small[d], u', q');
    ItemsDecoded(js, code, usages, tables[d][u][q], tree);
  }

  lemma TokensFrequent(code: Code, usages: string -> nat)
    requires code.Valid() && forall k :: k in code.index ==> usages(k) > 1
    ensures forall k :: k in code.tokens ==> usages(k) > 1
  {
  }

  /** The count by which names are tokenised; for a name that every object has it is NaN, here 0. */
  function Counted(js: Js, tables: map<string, Table>): string -> nat {
    (name: string) => if name in js.inherited then 0 else Usages(tables, name)
  }

  /** Each name of the chain occurs more than once or is no numeral, and none is one that every object has. */
  ghost predicate NamesReturn(js: Js, tables: map<string, Table>, c: string)
    requires c in tables
  {
    forall name :: Occurs(tables[c], name) ==>
      name !in js.inherited && (Usages(tables, name) > 1 || js.number(name) == NaN)
  }

  /** When all tables come back, whatever the names. */
  lemma AllComeBackIff(js: Js, code: Code, usages: string -> nat, tables: map<string, Table>,
                       small: map<string, Minified>,
                       shared: map<string, Shared>, commonTrees: seq<Items>)
    requires js.Sound() && code.Valid() && (forall k :: k in code.index ==> usages(k) > 1)
    requires small.Keys == tables.Keys && MinifiedTables(js, code, usages, tables, small)
    requires KeyedTables(js, commonTrees, small, shared) && AllExact(js, small, shared)
    requires AreTrees(small, commonTrees) && KeysOnce(js, commonTrees)
    ensures shared.Keys == tables.Keys
    ensures (forall c :: c in tables ==> ComesBack(js, code.tokens, commonTrees, shared[c], tables[c]))
            <==> (forall c :: c in tables ==> AllSurvive(js, usages, tables[c])) && TreesDiffer(js, small)
    ensures TreesDiffer(js, small) ==>
              forall c :: c in tables ==>
                (ComesBack(js, code.tokens, commonTrees, shared[c], tables[c]) <==> AllSurvive(js, usages, tables[c]))
  {
    hide Js.Sound, Code.Valid, MinifiedTable, KeyedTable, AllExact, AreTrees, KeysOnce, AllSurvive, ComesBack,
        TreesDiffer,
      SharedTable, OwnTrees;
    CommonTreesOwn(js, code, usages, tables, small, commonTrees);
    if TreesDiffer(js, small) {
      SharedIfDiffer(js, commonTrees, small, shared);
      forall c | c in tables
        ensures ComesBack(js, code.tokens, commonTrees, shared[c], tables[c]) <==> AllSurvive(js, usages, tables[c])
      {
        ComesBackIff(js, code, usages, tables[c], small[c], shared[c], commonTrees);
      }
    } else if forall c :: c in tables ==> ComesBack(js, code.tokens, commonTrees, shared[c], tables[c]) {
      forall c | c in tables ensures EncodedTable(js, code, usages, tables[c], small[c]) {
        BackIsEncoded(js, code, usages, tables[c], small[c], shared[c], commonTrees);
      }
      SharedIfBack(js, code, usages, tables, small, shared, commonTrees);
      DifferIfShared(js, commonTrees, small, shared);
    }
  }

  lemma CommonTreesOwn(js: Js, code: Code, usages: string -> nat, tables: map<string, Table>,
                       small: map<string, Minified>, commonTrees: seq<Items>)
    requires MinifiedTables(js, code, usages, tables, small) && AreTrees(small, commonTrees)
    ensures OwnTrees(js, commonTrees)
  {
    hide HandledTable, PlainTable, PlainTrees, KeysImage, NamedTable, EncodedTable, OwnKeys;
    forall i | 0 <= i < |commonTrees| ensures OwnKeys(js, commonTrees[i]) {
      assert IsTree(small, commonTrees[i]);
      var c, t, p :| TreeAt(small, c, t, p) && small[c][t][p] == commonTrees[i];
      assert MinifiedTable(js, code, usages, tables[c], small[c]);
      assert OwnPalletKeys(js, small[c][t]);
    }
  }

  /** A table that comes back was encoded one for one. */
  lemma BackIsEncoded(js: Js, code: Code, usages: string -> nat, table: Table, small: Minified, shared: Shared,
                      commonTrees: seq<Items>)
    requires js.Sound() && code.Valid() && (forall k :: k in code.index ==> usages(k) > 1)
    requires MinifiedTable(js, code, usages, table, small) && ComesBack(js, code.tokens, commonTrees, shared, table)
    requires KeyedTable(js, commonTrees, small, shared) && OwnTrees(js, commonTrees)
    ensures AllSurvive(js, usages, table) && EncodedTable(js, code, usages, table, small)
  {
    hide GetChainDescriptors, AsDescriptors, EncodedTable, NamedTable, HandledTable, PlainTable, KeysImage, Occurs,
        Js.Sound;
    if !AllSurvive(js, usages, table) {
      var name :| Occurs(table, name) && !Survives(js, usages, name);
      DoesNotSurvive(js, code, usages, table, small, shared, commonTrees, name);
    }
    SurvivingIsNamed(js, usages, table);
  }

  /**
   * Compresses the tables of all chains, of which there is at least one. All of them come back if and
   * only if each name is no numeral or occurs more than once, none is a name that every object has, and
   * no two different trees, with their names replaced by tokens, have one key; the last is so if the
   * names that occur once are plain. Where no two trees have one key, this holds of each chain by
   * itself. Exactly the names that occur more than once, and that not every object has, have tokens.
   */
  method GenerateDescriptorValuesContent(js: Js, tables: map<string, Table>, someChain: string)
    returns (minified: map<string, Shared>, commonTrees: seq<Items>, tokens: seq<string>,
             ghost small: map<string, Minified>, ghost code: Code)
    requires js.Sound() && someChain in tables && SameKinds(tables)
    ensures minified.Keys == tables.Keys && code.Valid() && code.tokens == tokens
    ensures small.Keys == tables.Keys && MinifiedTables(js, code, Counted(js, tables), tables, small)
    ensures (forall c :: c in tables ==> ComesBack(js, tokens, commonTrees, minified[c], tables[c]))
            <==> (forall c :: c in tables ==> NamesReturn(js, tables, c)) && TreesDiffer(js, small)
    ensures TreesDiffer(js, small) ==>
              forall c :: c in tables ==>
                (ComesBack(js, tokens, commonTrees, minified[c], tables[c]) <==> NamesReturn(js, tables, c))
    ensures (forall c :: c in tables ==> PlainTable(js, Counted(js, tables), tables[c])) ==> TreesDiffer(js, small)
    ensures forall i :: 0 <= i < |tokens| ==> Usages(tables, tokens[i]) > 1
    ensures forall i, j :: 0 <= i < j < |tokens| ==> tokens[i] != tokens[j]
    ensures forall c, name ::
              c in tables && Occurs(tables[c], name) && Usages(tables, name) > 1 && name !in js.inherited ==>
                name in tokens
  {
    hide PlainTable, Occurs, ComesBack, Usages, MinifiedTables, KindsAre, TreesDiffer, KeyedTables, AllExact, WithTrees;
    hide TreesInOrder, AreTrees, KeysOnce, PlainTrees, NamesReturn, AllSurvive, Counted;
    CountedAsUsed(js, tables);
    ghost var usages := Counted(js, tables);
    var minifiedTables;
    minifiedTables, tokens, code := MinifyTables(js, tables, Counted(js, tables));
    small := minifiedTables;
    MinifiedShape(js, code, usages, tables, small);
    minified, commonTrees := FindCommonTrees(js, minifiedTables, someChain);
    CommonTreesOf(js, small, js.keys(small.Keys), js.keys(small[someChain].Keys), commonTrees);
    AllComeBackIff(js, code, usages, tables, small, minified, commonTrees);
    PlainSmall(js, code, usages, tables, small);
    TokensFrequent(code, usages);
    FrequentHaveTokens(js, code, usages, tables, small);
  }

  lemma CountedAsUsed(js: Js, tables: map<string, Table>)
    ensures forall name :: Counted(js, tables)(name) > 1 <==> Usages(tables, name) > 1 && name !in js.inherited
    ensures forall name :: name in js.inherited ==> Counted(js, tables)(name) == 0
    ensures forall c :: c in tables ==> (AllSurvive(js, Counted(js, tables), tables[c]) <==> NamesReturn(js, tables, c))
  {
    hide Usages, Occurs;
  }

  lemma FrequentHaveTokens(js: Js, code: Code, usages: string -> nat, tables: map<string, Table>,
                           small: map<string, Minified>)
    requires code.Valid() && small.Keys == tables.Keys && MinifiedTables(js, code, usages, tables, small)
    ensures forall c, name :: c in tables && Occurs(tables[c], name) && usages(name) > 1 ==> name in code.tokens
  {
    hide Occurs, MinifiedTable, Code.Valid;
    forall c, name | c in tables && Occurs(tables[c], name) && usages(name) > 1 ensures name in code.tokens {
      TableHandled(js, code, usages, tables[c], small[c]);
      FrequentHasToken(code, usages, tables[c], name);
    }
  }

  lemma CommonTreesOf(js: Js, small: map<string, Minified>, chains: seq<string>, kinds: seq<string>,
                      commonTrees: seq<Items>)
    requires js.Sound() && commonTrees == WithTrees(js, small, [], TreesInOrder(js, small, chains, kinds))
    ensures AreTrees(small, commonTrees) && KeysOnce(js, commonTrees)
  {
    hide AreTrees, KeysOnce, WithTrees, TreesInOrder, Js.Sound;
    TreesInOrderAre(js, small, chains, kinds);
    CommonTreesAre(js, small, TreesInOrder(js, small, chains, kinds));
  }

  lemma PlainSmall(js: Js, code: Code, usages: string -> nat, tables: map<string, Table>, small: map<string, Minified>)
    requires js.Sound() && MinifiedTables(js, code, usages, tables, small)
    ensures (forall c :: c in tables ==> PlainTable(js, usages, tables[c])) ==> TreesDiffer(js, small)
  {
    hide PlainTable, PlainTrees, HandledTable, KeysImage, NamedTable, EncodedTable, TreesDiffer, Js.Sound;
    if forall c :: c in tables ==> PlainTable(js, usages, tables[c]) {
      PlainTreesDiffer(js, small);
    }
  }

  lemma TableHandled(js: Js, code: Code, usages: string -> nat, table: Table, small: Minified)
    requires MinifiedTable(js, code, usages, table, small)
    ensures HandledTable(code, usages, table)
  {
  }

  /** The tables of one chain with one kind. */
  function OneChain(kind: string, pallets: map<string, Items>): map<string, Table> {
    map["chain" := map[kind := pallets]]
  }

  /** One chain with a storage entry "0", which occurs once: it does not come back. */
  method NumeralRun(js: Js)
    returns (tables: map<string, Table>, minified: map<string, Shared>, commonTrees: seq<Items>, tokens: seq<string>)
    requires js.Sound()
    ensures tables == OneChain("storage", map["System" := map["0" := 7]])
    ensures "chain" in minified && !ComesBack(js, tokens, commonTrees, minified["chain"], tables["chain"])
  {
    hide ComesBack, TreesDiffer, MinifiedTables, PlainTable, NamesReturn, Js.Sound, Code.Valid, Occurs, Usages;
    tables := OneChain("storage", map["System" := map["0" := 7]]);
    ghost var small, code;
    minified, commonTrees, tokens, small, code := GenerateDescriptorValuesContent(js, tables, "chain");
    NumeralDoesNotReturn(js, tables);
  }

  lemma NumeralDoesNotReturn(js: Js, tables: map<string, Table>)
    requires js.Sound() && tables == OneChain("storage", map["System" := map["0" := 7]])
    ensures !NamesReturn(js, tables, "chain")
  {
    ZeroIsNumeral(js);
    OccursOnce(tables);
    hide Usages, Occurs;
  }

  lemma ZeroIsNumeral(js: Js)
    requires js.Sound()
    ensures js.number("0") == Index(0)
  {
    assert js.number(Digits(0)) == Index(0);
    assert Digits(0) == "0";
  }

  lemma OccursOnce(tables: map<string, Table>)
    requires tables == OneChain("storage", map["System" := map["0" := 7]])
    ensures Usages(tables, "0") == 1 && Occurs(tables["chain"], "0")
  {
    var name := "0";
    assert "0" in tables["chain"]["storage"]["System"];
    assert (set c | c in tables && name in tables[c]) == {};
    assert (set c, t | c in tables && t in tables[c] && name in tables[c][t] :: (c, t)) == {};
    assert (set c, t, p | c in tables && t in tables[c] && p in tables[c][t] && name in tables[c][t][p] :: (c, t, p))
        == {("chain", "storage", "System")};
  }

  /** One chain with an item "constructor": every object has this name, and it does not come back. */
  method InheritedRun(js: Js)
    returns (tables: map<string, Table>, minified: map<string, Shared>, commonTrees: seq<Items>, tokens: seq<string>)
    requires js.Sound() && "constructor" in js.inherited
    ensures tables == OneChain("tx", map["System" := map["constructor" := 7]])
    ensures "chain" in minified && !ComesBack(js, tokens, commonTrees, minified["chain"], tables["chain"])
  {
    hide ComesBack, TreesDiffer, MinifiedTables, PlainTable, NamesReturn, Js.Sound, Code.Valid, Occurs, Usages;
    tables := OneChain("tx", map["System" := map["constructor" := 7]]);
    ghost var small, code;
    minified, commonTrees, tokens, small, code := GenerateDescriptorValuesContent(js, tables, "chain");
    InheritedDoesNotReturn(js, tables);
  }

  lemma InheritedDoesNotReturn(js: Js, tables: map<string, Table>)
    requires "constructor" in js.inherited && tables == OneChain("tx", map["System" := map["constructor" := 7]])
    ensures !NamesReturn(js, tables, "chain")
  {
    assert "constructor" in tables["chain"]["tx"]["System"];
    assert Occurs(tables["chain"], "constructor");
    hide Usages, Occurs;
  }

  /** Two trees of one key: with punctuation in a name the entries of one read like those of another. */
  function Collision(): map<string, Items> {
    map["P" := map["a" := 1, "b" := 2], "Q" := map["a:1][b" := 2]]
  }

  /**
   * One chain whose names are no numerals and occur once each, and two of whose trees have one key: it
   * does not come back.
   */
  method PunctuationRun(js: Js)
    returns (tables: map<string, Table>, minified: map<string, Shared>, commonTrees: seq<Items>, tokens: seq<string>)
    requires js.Sound() && js.sort({"a", "b"}) == ["a", "b"] && js.sort({"a:1][b"}) == ["a:1][b"]
    requires forall name :: Occurs(map["tx" := Collision()], name) ==> js.number(name) == NaN && name !in js.inherited
    ensures tables == OneChain("tx", Collision()) && NamesReturn(js, tables, "chain")
    ensures "chain" in minified && !ComesBack(js, tokens, commonTrees, minified["chain"], tables["chain"])
  {
    hide ComesBack, TreesDiffer, MinifiedTables, PlainTable, NamesReturn, Js.Sound, Code.Valid, Occurs, Usages;
    tables := OneChain("tx", Collision());
    ghost var small, code;
    minified, commonTrees, tokens, small, code := GenerateDescriptorValuesContent(js, tables, "chain");
    WordsReturn(js, tables);
    CollisionInTables(js, code, tables, small);
  }

  lemma WordsReturn(js: Js, tables: map<string, Table>)
    requires tables == OneChain("tx", Collision())
    requires forall name :: Occurs(map["tx" := Collision()], name) ==> js.number(name) == NaN && name !in js.inherited
    ensures NamesReturn(js, tables, "chain")
  {
    hide Occurs, Usages;
  }

  lemma SameTreeKeys(js: Js)
    requires js.Sound() && js.sort({"a", "b"}) == ["a", "b"] && js.sort({"a:1][b"}) == ["a:1][b"]
    ensures TreeKey(js, Collision()["P"]) == TreeKey(js, Collision()["Q"])
  {
    var s, t := Collision()["P"], Collision()["Q"];
    assert s.Keys == {"a", "b"} && t.Keys == {"a:1][b"};
    var keys := ["a", "b"];
    assert keys[..1] == ["a"] && keys[..1][..0] == [] && ["a:1][b"][..0] == [];
    PunctuationCollides();
    hide Entry, Js.Sound;
    assert Join(s, []) == "" && Join(t, []) == "";
    assert Join(s, ["a"]) == "" + Entry("a", 1);
    assert Join(s, keys) == ("" + Entry("a", 1)) + Entry("b", 2);
    assert Join(t, ["a:1][b"]) == "" + Entry("a:1][b", 2);
  }

  lemma PunctuationCollides()
    ensures Entry("a", 1) + Entry("b", 2) == Entry("a:1][b", 2)
  {
    assert Digits(1) == "1" && Digits(2) == "2";
  }

  /** The items' names occur once each. */
  lemma ItemsOnce(tables: map<string, Table>, p: string, name: string)
    requires tables == OneChain("tx", Collision()) && p in Collision() && name in Collision()[p]
    ensures Usages(tables, name) == 1
  {
    assert (set c | c in tables && name in tables[c]) == {};
    assert (set c, t | c in tables && t in tables[c] && name in tables[c][t] :: (c, t)) == {};
    assert (set c, t, p | c in tables && t in tables[c] && p in tables[c][t] && name in tables[c][t][p] :: (c, t, p))
        == {("chain", "tx", p)};
  }

  lemma CollisionInTables(js: Js, code: Code, tables: map<string, Table>, small: map<string, Minified>)
    requires js.Sound() && js.sort({"a", "b"}) == ["a", "b"] && js.sort({"a:1][b"}) == ["a:1][b"]
    requires code.Valid() && forall k :: k in code.tokens ==> Usages(tables, k) > 1
    requires tables == OneChain("tx", Collision()) && small.Keys == tables.Keys
    requires NamesReturn(js, tables, "chain")
    requires MinifiedTables(js, code, Counted(js, tables), tables, small)
    ensures !TreesDiffer(js, small)
  {
    var usages := Counted(js, tables);
    SameTreeKeys(js);
    assert Collision()["P"] != Collision()["Q"] by { assert "a" in Collision()["P"] && "a" !in Collision()["Q"]; }
    NamesAreNamed(js, tables);
    UncodedTree(js, code, usages, tables, small, "P");
    UncodedTree(js, code, usages, tables, small, "Q");
    hide TreeKey, Js.Sound, IsTree, NamesReturn, Collision;
  }

  lemma NamesAreNamed(js: Js, tables: map<string, Table>)
    requires "chain" in tables && NamesReturn(js, tables, "chain")
    ensures NamedTable(js, Counted(js, tables), tables["chain"])
  {
    hide Occurs, Usages;
    SurvivingIsNamed(js, Counted(js, tables), tables["chain"]);
  }

  /** A tree of names without tokens is not changed. */
  lemma UncodedTree(js: Js, code: Code, usages: string -> nat, tables: map<string, Table>, small: map<string, Minified>,
                    p: string)
    requires code.Valid() && (forall k :: k in code.tokens ==> Usages(tables, k) > 1)
    requires tables == OneChain("tx", Collision()) && small.Keys == tables.Keys && p in Collision()
    requires MinifiedTables(js, code, usages, tables, small) && NamedTable(js, usages, tables["chain"])
    ensures IsTree(small, Collision()[p])
  {
    var r := small["chain"];
    assert MinifiedTable(js, code, usages, tables["chain"], r);
    hide NamedTable, EncodedItems, DecodeKey, Usages, Collision;
    assert EncodedPallets(js, code, usages, tables["chain"]["tx"], r[Encode(js, code, "tx")]);
    var t', p' := Encode(js, code, "tx"), Encode(js, code, p);
    assert EncodedItems(js, code, usages, Collision()[p], r[t'][p']);
    IndexedAreTokens(code);
    forall name | name in Collision()[p] ensures name !in code.index {
      ItemsOnce(tables, p, name);
    }
    Uncoded(js, code, usages, Collision()[p], r[t'][p']);
    assert TreeAt(small, "chain", t', p');
  }

  lemma IndexedAreTokens(code: Code)
    requires code.Valid()
    ensures forall k :: k in code.index ==> k in code.tokens
  {
  }

  lemma Uncoded(js: Js, code: Code, usages: string -> nat, m: Items, r: Items)
    requires EncodedItems(js, code, usages, m, r) && forall name :: name in m ==> name !in code.index
    ensures r == m
  {
    hide DecodeKey;
    forall s | s in r ensures s in m {
      var k := DecodeKey(js, code.tokens, s);
      assert k in m && Encode(js, code, k) == s;
    }
  }
}
