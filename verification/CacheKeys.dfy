/**
 Keys of cached chunks and of their layers, and their form as strings.
 */
module CacheKeys {
  import opened Wrappers
  import opened Texts

  datatype CacheEngineKey = CacheEngineKey(
    fmt: string, modelName: string, worldSize: int, workerId: int, chunkHash: string)

  datatype LayerCacheEngineKey = LayerCacheEngineKey(
    fmt: string, modelName: string, worldSize: int, workerId: int, chunkHash: string, layerId: int)

  function ToString(k: CacheEngineKey): string {
    Join([k.fmt, k.modelName, Str(k.worldSize), Str(k.workerId), k.chunkHash], '@')
  }

  function LayerToString(k: LayerCacheEngineKey): string {
    Join([k.fmt, k.modelName, Str(k.worldSize), Str(k.workerId), k.chunkHash, Str(k.layerId)], '@')
  }

  /** None is a ValueError: a wrong number of parts, or a part that is no integer. */
  function FromString(s: string): Option<CacheEngineKey> {
    var parts := Split(s, '@');
    if |parts| != 5 then None
    else if Int(parts[2]).None? || Int(parts[3]).None? then None
    else Some(CacheEngineKey(parts[0], parts[1], Int(parts[2]).value, Int(parts[3]).value, parts[4]))
  }

  function LayerFromString(s: string): Option<LayerCacheEngineKey> {
    var parts := Split(s, '@');
    if |parts| != 6 then None
    else if Int(parts[2]).None? || Int(parts[3]).None? || Int(parts[5]).None? then None
    else Some(LayerCacheEngineKey(parts[0], parts[1], Int(parts[2]).value, Int(parts[3]).value, parts[4],
                                  Int(parts[5]).value))
  }

  function LayerKey(k: CacheEngineKey, layerId: int): LayerCacheEngineKey {
    LayerCacheEngineKey(k.fmt, k.modelName, k.worldSize, k.workerId, k.chunkHash, layerId)
  }

  method SplitLayers(k: CacheEngineKey, numLayers: int) returns (keys: seq<LayerCacheEngineKey>)
    ensures |keys| == if numLayers < 0 then 0 else numLayers
    ensures forall i :: 0 <= i < |keys| ==>
      keys[i] == LayerCacheEngineKey(k.fmt, k.modelName, k.worldSize, k.workerId, k.chunkHash, i)
  {
    keys := [];
    var layerId := 0;
    while layerId < numLayers
      invariant |keys| == layerId && (layerId <= numLayers || layerId == 0)
      invariant forall i :: 0 <= i < |keys| ==> keys[i] == LayerKey(k, i)
    {
      keys := keys + [LayerKey(k, layerId)];
      layerId := layerId + 1;
    }
  }

  // ---------------------------------------------------------------- round trips

  predicate NoSeparator(fmt: string, modelName: string, chunkHash: string) {
    '@' !in fmt && '@' !in modelName && '@' !in chunkHash
  }

  /** A key comes back from its string exactly when no text field holds the separator. */
  lemma KeyRoundTripsExactly(k: CacheEngineKey)
    ensures FromString(ToString(k)) == Some(k) <==> NoSeparator(k.fmt, k.modelName, k.chunkHash)
    ensures NoSeparator(k.fmt, k.modelName, k.chunkHash) <==> |Split(ToString(k), '@')| == 5
  {
    var parts := [k.fmt, k.modelName, Str(k.worldSize), Str(k.workerId), k.chunkHash];
    hide Split, Join, Str, Int, Count, CountAll;
    JoinedParts(parts, '@');
    SplitJoinExactly(parts, '@');
    IntOfStr(k.worldSize);
    IntOfStr(k.workerId);
    assert NoSeparator(k.fmt, k.modelName, k.chunkHash) ==> forall i :: 0 <= i < 5 ==> '@' !in parts[i];
  }

  lemma LayerKeyRoundTripsExactly(k: LayerCacheEngineKey)
    ensures LayerFromString(LayerToString(k)) == Some(k) <==> NoSeparator(k.fmt, k.modelName, k.chunkHash)
    ensures NoSeparator(k.fmt, k.modelName, k.chunkHash) <==> |Split(LayerToString(k), '@')| == 6
    ensures |Split(LayerToString(k), '@')| >= 6
  {
    var parts := [k.fmt, k.modelName, Str(k.worldSize), Str(k.workerId), k.chunkHash, Str(k.layerId)];
    hide Split, Join, Str, Int, Count, CountAll;
    JoinedParts(parts, '@');
    SplitJoinExactly(parts, '@');
    IntOfStr(k.worldSize);
    IntOfStr(k.workerId);
    IntOfStr(k.layerId);
    assert NoSeparator(k.fmt, k.modelName, k.chunkHash) ==> forall i :: 0 <= i < 6 ==> '@' !in parts[i];
  }

  /** The string of a layer key never parses as a plain key. */
  lemma LayerStringsAreNoPlainKeys(l: LayerCacheEngineKey)
    ensures FromString(LayerToString(l)) == None
  {
    hide Split, Join, Str, Int;
    LayerKeyRoundTripsExactly(l);
  }

  function Separators(k: CacheEngineKey): nat {
    Count(k.fmt, '@') + Count(k.modelName, '@') + Count(k.chunkHash, '@')
  }

  /** The parts that stand where a layer key has its numbers, given one separator in
      the text fields. */
  function NumberParts(k: CacheEngineKey): seq<string>
    requires Separators(k) == 1
  {
    SplitCount(k.modelName, '@');
    SplitCount(k.chunkHash, '@');
    if '@' in k.fmt then [k.modelName, k.chunkHash]
    else if '@' in k.modelName then [Split(k.modelName, '@')[1], k.chunkHash]
    else [Split(k.chunkHash, '@')[1]]
  }

  predicate AreNumbers(parts: seq<string>) {
    forall i :: 0 <= i < |parts| ==> Int(parts[i]).Some?
  }

  /** The parts of the string of a plain key, field by field. */
  lemma PlainParts(k: CacheEngineKey)
    ensures Split(ToString(k), '@')
            == Split(k.fmt, '@') + Split(k.modelName, '@') + [Str(k.worldSize), Str(k.workerId)] + Split(k.chunkHash, '@')
    ensures |Split(ToString(k), '@')| == 5 + Separators(k)
  {
    var w, i := Str(k.worldSize), Str(k.workerId);
    SplitWhole(w, '@');
    SplitWhole(i, '@');
    SplitCount(k.fmt, '@');
    SplitCount(k.modelName, '@');
    SplitCount(k.chunkHash, '@');
    hide *;
    SplitJoin([k.fmt, k.modelName, w, i, k.chunkHash], '@');
    SplitFive(k.fmt, k.modelName, w, i, k.chunkHash);
    assert ToString(k) == Join([k.fmt, k.modelName, w, i, k.chunkHash], '@') by {
      ToStringJoins(k);
    }
    assert Separators(k) == Count(k.fmt, '@') + Count(k.modelName, '@') + Count(k.chunkHash, '@') by {
      SeparatorsAdd(k);
    }
    RegroupParts(Split(k.fmt, '@'), Split(k.modelName, '@'), w, i, Split(k.chunkHash, '@'));
  }

  lemma ToStringJoins(k: CacheEngineKey)
    ensures ToString(k) == Join([k.fmt, k.modelName, Str(k.worldSize), Str(k.workerId), k.chunkHash], '@')
  {
    hide Join, Str;
  }

  lemma SeparatorsAdd(k: CacheEngineKey)
    ensures Separators(k) == Count(k.fmt, '@') + Count(k.modelName, '@') + Count(k.chunkHash, '@')
  {
    hide Count;
  }

  lemma SplitFive(a: string, b: string, c: string, d: string, e: string)
    ensures SplitAll([a, b, c, d, e], '@')
            == Split(a, '@') + (Split(b, '@') + (Split(c, '@') + (Split(d, '@') + Split(e, '@'))))
  {
    hide Split;
    assert [a, b, c, d, e][1..] == [b, c, d, e] && [b, c, d, e][1..] == [c, d, e];
    assert [c, d, e][1..] == [d, e] && [d, e][1..] == [e] && [e][1..] == [];
    assert SplitAll([e], '@') == Split(e, '@') + SplitAll([], '@') == Split(e, '@');
    assert SplitAll([d, e], '@') == Split(d, '@') + Split(e, '@');
    assert SplitAll([c, d, e], '@') == Split(c, '@') + (Split(d, '@') + Split(e, '@'));
    assert SplitAll([b, c, d, e], '@') == Split(b, '@') + (Split(c, '@') + (Split(d, '@') + Split(e, '@')));
  }

  lemma RegroupParts(f: seq<string>, m: seq<string>, w: string, i: string, h: seq<string>)
    ensures f + (m + ([w] + ([i] + h))) == f + m + [w, i] + h
  {
  }

  /** The string of a plain key parses as a layer key exactly when its text fields hold
      one separator in all and the parts that come to stand for numbers are numbers. */
  lemma PlainParsesAsLayerExactly(k: CacheEngineKey)
    ensures LayerFromString(ToString(k)).Some? <==> Separators(k) == 1 && AreNumbers(NumberParts(k))
  {
    PlainParts(k);
    SplitCount(k.fmt, '@');
    SplitCount(k.modelName, '@');
    SplitCount(k.chunkHash, '@');
    IntOfStr(k.worldSize);
    IntOfStr(k.workerId);
    if Separators(k) == 1 {
      WhereTheSeparatorIs(k);
    }
  }

  lemma SixParts(f: seq<string>, m: seq<string>, w: string, i: string, h: seq<string>)
    requires |f| >= 1 && |m| >= 1 && |h| >= 1 && |f| + |m| + |h| == 4
    ensures var all := f + m + [w, i] + h;
            && |all| == 6
            && (|f| == 2 ==> all[2] == m[0] && all[3] == w && all[5] == h[0])
            && (|m| == 2 ==> all[2] == m[1] && all[3] == w && all[5] == h[0])
            && (|h| == 2 ==> all[2] == w && all[3] == i && all[5] == h[1])
  {
  }

  lemma WhereTheSeparatorIs(k: CacheEngineKey)
    requires Separators(k) == 1
    ensures |Split(ToString(k), '@')| == 6
    ensures var parts := Split(ToString(k), '@');
            Int(parts[2]).Some? && Int(parts[3]).Some? && Int(parts[5]).Some? <==> AreNumbers(NumberParts(k))
  {
    SplitCount(k.fmt, '@');
    SplitCount(k.modelName, '@');
    SplitCount(k.chunkHash, '@');
    SixParts(Split(k.fmt, '@'), Split(k.modelName, '@'), Str(k.worldSize), Str(k.workerId), Split(k.chunkHash, '@'));
    hide Split, ToString, Str, Int;
    PlainParts(k);
    IntOfStr(k.worldSize);
    IntOfStr(k.workerId);
    if '@' in k.fmt {
      SplitWhole(k.modelName, '@');
      SplitWhole(k.chunkHash, '@');
      BothNumbers(k.modelName, k.chunkHash);
    } else if '@' in k.modelName {
      SplitWhole(k.chunkHash, '@');
      BothNumbers(Split(k.modelName, '@')[1], k.chunkHash);
    } else {
      assert AreNumbers(NumberParts(k)) <==> Int(NumberParts(k)[0]).Some?;
    }
  }

  lemma BothNumbers(a: string, b: string)
    ensures AreNumbers([a, b]) <==> Int(a).Some? && Int(b).Some?
  {
    assert [a, b][0] == a && [a, b][1] == b;
    hide Int;
  }

  /** So without separators in the fields neither kind of string parses as the other. */
  lemma KindsDoNotMix(k: CacheEngineKey, l: LayerCacheEngineKey)
    requires NoSeparator(k.fmt, k.modelName, k.chunkHash)
    ensures LayerFromString(ToString(k)) == None && FromString(LayerToString(l)) == None
  {
    hide ToString, LayerToString, FromString, LayerFromString;
    PlainParsesAsLayerExactly(k);
    LayerStringsAreNoPlainKeys(l);
  }

  /** What it parses as, for a model name with a number behind a separator. */
  lemma SeparatorMakesALayerKey(fmt: string, name: string, n: int, worldSize: int, workerId: int, hash: int)
    requires '@' !in fmt && '@' !in name
    ensures LayerFromString(ToString(CacheEngineKey(fmt, name + "@" + Str(n), worldSize, workerId, Str(hash))))
            == Some(LayerCacheEngineKey(fmt, name, n, worldSize, Str(workerId), hash))
  {
    hide Split, Join, Str, Int;
    var rest := [Str(worldSize), Str(workerId), Str(hash)];
    LayerKeyRoundTripsExactly(LayerCacheEngineKey(fmt, name, n, worldSize, Str(workerId), hash));
    JoinSkewed(fmt, name, Str(n), rest);
    assert [fmt, name, Str(n)] + rest == [fmt, name, Str(n), Str(worldSize), Str(workerId), Str(hash)];
    assert [fmt, name + "@" + Str(n)] + rest == [fmt, name + "@" + Str(n), Str(worldSize), Str(workerId), Str(hash)];
  }

  lemma JoinSkewed(a: string, b: string, c: string, rest: seq<string>)
    requires rest != []
    ensures Join([a, b + "@" + c] + rest, '@') == Join([a, b, c] + rest, '@')
  {
    assert ([a, b + "@" + c] + rest)[1..] == [b + "@" + c] + rest;
    assert ([b + "@" + c] + rest)[1..] == rest;
    assert ([a, b, c] + rest)[1..] == [b, c] + rest;
    assert ([b, c] + rest)[1..] == [c] + rest;
    assert ([c] + rest)[1..] == rest;
    var tail := Join(rest, '@');
    assert Join([c] + rest, '@') == c + ['@'] + tail;
    assert Join([b + "@" + c] + rest, '@') == (b + "@" + c) + ['@'] + tail;
    assert (b + "@" + c) + ['@'] + tail == b + ['@'] + (c + ['@'] + tail);
  }

  lemma LayerStringExtends(k: CacheEngineKey, i: int)
    ensures LayerToString(LayerKey(k, i)) == ToString(k) + "@" + Str(i)
  {
    hide Str;
    var w, r, last := Str(k.worldSize), Str(k.workerId), Str(i);
    JoinLast([k.fmt, k.modelName, w, r, k.chunkHash], last);
    assert [k.fmt, k.modelName, w, r, k.chunkHash] + [last] == [k.fmt, k.modelName, w, r, k.chunkHash, last];
  }

  lemma {:induction false} JoinLast(parts: seq<string>, last: string)
    requires parts != []
    ensures Join(parts + [last], '@') == Join(parts, '@') + "@" + last
  {
    assert (parts + [last])[1..] == parts[1..] + [last];
    if |parts| > 1 {
      JoinLast(parts[1..], last);
      var tail := Join(parts[1..], '@');
      assert parts[0] + ['@'] + (tail + "@" + last) == (parts[0] + ['@'] + tail) + "@" + last;
    } else {
      assert Join([last], '@') == last;
    }
  }

  /** The string of a layer extends that of its key; the strings of the layers are
      distinct, and each parses back to its layer. */
  lemma LayerStringsAreDistinct(k: CacheEngineKey, i: int, j: int)
    requires NoSeparator(k.fmt, k.modelName, k.chunkHash)
    ensures LayerToString(LayerKey(k, i)) == ToString(k) + "@" + Str(i)
    ensures LayerFromString(ToString(k) + "@" + Str(i))
         == Some(LayerCacheEngineKey(k.fmt, k.modelName, k.worldSize, k.workerId, k.chunkHash, i))
    ensures LayerToString(LayerKey(k, i)) == LayerToString(LayerKey(k, j)) <==> i == j
  {
    hide ToString, LayerToString, LayerFromString, Split, Str;
    LayerStringExtends(k, i);
    LayerKeyRoundTripsExactly(LayerKey(k, i));
    LayerKeyRoundTripsExactly(LayerKey(k, j));
  }
}
