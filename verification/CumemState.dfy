/**
 What the device holds on behalf of the allocator, as a value: the chunk mappings and
 handles of every address range, and how they change when a range is added, woken, put
 to sleep or given back.
 */
module CumemState {
  import opened DeviceMemory
  import opened CumemChunks

  ghost predicate Positive(cs: seq<nat>) {
    forall i :: 0 <= i < |cs| ==> cs[i] > 0
  }

  ghost predicate Distinct(xs: seq<nat>) {
    forall i, j :: 0 <= i < j < |xs| ==> xs[i] != xs[j]
  }

  /** The mappings of the first n chunks laid out one after the other from p. */
  ghost function MapOf(p: nat, cs: seq<nat>, hs: seq<nat>, n: nat): map<nat, Mapping>
    requires n <= |cs| && n <= |hs|
  {
    if n == 0 then map[]
    else MapOf(p, cs, hs, n - 1)[p + Prefix(cs, n - 1) := Mapping(cs[n - 1], hs[n - 1])]
  }

  /** The handles of the first n chunks. */
  ghost function LiveOf(cs: seq<nat>, hs: seq<nat>, n: nat): map<nat, nat>
    requires n <= |cs| && n <= |hs|
  {
    if n == 0 then map[] else LiveOf(cs, hs, n - 1)[hs[n - 1] := cs[n - 1]]
  }

  lemma {:induction false} MapOfInside(p: nat, cs: seq<nat>, hs: seq<nat>, n: nat)
    requires n <= |cs| && n <= |hs| && Positive(cs)
    ensures forall a :: a in MapOf(p, cs, hs, n) ==>
      p <= a && MapOf(p, cs, hs, n)[a].size > 0 && a + MapOf(p, cs, hs, n)[a].size <= p + Prefix(cs, n)
  {
    if n > 0 {
      MapOfInside(p, cs, hs, n - 1);
    }
  }

  lemma {:induction false} MapOfAt(p: nat, cs: seq<nat>, hs: seq<nat>, n: nat, i: nat)
    requires i < n <= |cs| && n <= |hs| && Positive(cs)
    ensures var a := p + Prefix(cs, i);
            a in MapOf(p, cs, hs, n) && MapOf(p, cs, hs, n)[a] == Mapping(cs[i], hs[i]) && a !in MapOf(p, cs, hs, i)
  {
    MapOfInside(p, cs, hs, n - 1);
    MapOfInside(p, cs, hs, i);
    if i < n - 1 {
      MapOfAt(p, cs, hs, n - 1, i);
    }
  }

  lemma {:induction false} LiveOfAt(cs: seq<nat>, hs: seq<nat>, n: nat, i: nat)
    requires i < n <= |cs| && n <= |hs| && Distinct(hs)
    ensures hs[i] in LiveOf(cs, hs, n) && LiveOf(cs, hs, n)[hs[i]] == cs[i] && hs[i] !in LiveOf(cs, hs, i)
  {
    LiveOfKeys(cs, hs, i);
    if i < n - 1 {
      LiveOfAt(cs, hs, n - 1, i);
    }
  }

  lemma {:induction false} LiveOfKeys(cs: seq<nat>, hs: seq<nat>, n: nat)
    requires n <= |cs| && n <= |hs|
    ensures forall h :: h in LiveOf(cs, hs, n) <==> h in hs[..n]
  {
    if n > 0 {
      LiveOfKeys(cs, hs, n - 1);
      assert hs[..n] == hs[..n - 1] + [hs[n - 1]];
    }
  }

  lemma {:induction false} SameHandlesSameMaps(p: nat, cs: seq<nat>, hs: seq<nat>, hs': seq<nat>, n: nat)
    requires n <= |cs| && n <= |hs| && n <= |hs'| && hs[..n] == hs'[..n]
    ensures MapOf(p, cs, hs, n) == MapOf(p, cs, hs', n) && LiveOf(cs, hs, n) == LiveOf(cs, hs', n)
  {
    if n > 0 {
      assert hs[..n - 1] == hs[..n][..n - 1] && hs'[..n - 1] == hs'[..n][..n - 1];
      assert hs[n - 1] == hs[..n][n - 1] && hs'[n - 1] == hs'[..n][n - 1];
      SameHandlesSameMaps(p, cs, hs, hs', n - 1);
    }
  }

  ghost predicate Covers(m: map<nat, Mapping>, x: nat) {
    exists a :: a in m && a <= x < a + m[a].size
  }

  /** The chunks of an allocation tile its range: an address is mapped by one of them
      exactly when it lies in the range, and no two of them overlap. */
  lemma {:induction false} ChunksTile(p: nat, cs: seq<nat>, hs: seq<nat>, n: nat)
    requires n <= |cs| && n <= |hs| && Positive(cs)
    ensures forall x: nat :: Covers(MapOf(p, cs, hs, n), x) <==> p <= x < p + Prefix(cs, n)
    ensures forall a, b :: a in MapOf(p, cs, hs, n) && b in MapOf(p, cs, hs, n) && a != b ==>
      Apart(a, MapOf(p, cs, hs, n)[a].size, b, MapOf(p, cs, hs, n)[b].size)
  {
    if n > 0 {
      ChunksTile(p, cs, hs, n - 1);
      MapOfInside(p, cs, hs, n - 1);
      var m, m', a0 := MapOf(p, cs, hs, n), MapOf(p, cs, hs, n - 1), p + Prefix(cs, n - 1);
      assert a0 !in m';
      forall x: nat ensures Covers(m, x) <==> Covers(m', x) || a0 <= x < a0 + cs[n - 1] {
        if Covers(m', x) {
          var a :| a in m' && a <= x < a + m'[a].size;
          assert a in m && m[a] == m'[a];
        }
        if a0 <= x < a0 + cs[n - 1] {
          assert a0 in m;
        }
      }
    }
  }

  // ------------------------------------------------------------------- holdings

  /** One reserved range: how it is cut, the handles behind the chunks, and whether
      they are mapped. */
  datatype Holding = Holding(chunks: seq<nat>, handles: seq<nat>, awake: bool) {
    ghost predicate Ok() {
      Positive(chunks) && (awake ==> |handles| == |chunks| && Distinct(handles))
    }

    ghost function Maps(p: nat): map<nat, Mapping>
      requires Ok()
    {
      if awake then MapOf(p, chunks, handles, |chunks|) else map[]
    }

    ghost function Lives(): map<nat, nat>
      requires Ok()
    {
      if awake then LiveOf(chunks, handles, |chunks|) else map[]
    }
  }

  type Holdings = map<nat, Holding>

  ghost predicate HoldingsOk(held: Holdings) {
    && (forall p :: p in held ==> held[p].Ok())
    && (forall p, q :: p in held && q in held && p != q ==> Apart(p, Sum(held[p].chunks), q, Sum(held[q].chunks)))
  }

  ghost predicate ReservedMatch(held: Holdings, reserved: map<nat, nat>) {
    reserved.Keys == held.Keys && forall p :: p in held ==> reserved[p] == Sum(held[p].chunks)
  }

  ghost predicate Within<K, V>(a: map<K, V>, b: map<K, V>) {
    forall k :: k in a ==> k in b && b[k] == a[k]
  }

  /** m is the disjoint union of the maps in the family; owner tells which of them a
      key comes from. */
  ghost predicate Owned<K(!new), V(!new)>(family: map<nat, map<K, V>>, m: map<K, V>, owner: map<K, nat>) {
    owner.Keys == m.Keys && HaveOwners(family, m, owner) && OwnersHave(family, m, owner)
  }

  ghost predicate HaveOwners<K(!new), V(!new)>(family: map<nat, map<K, V>>, m: map<K, V>, owner: map<K, nat>)
    requires owner.Keys == m.Keys
  {
    forall k :: k in m ==> owner[k] in family && k in family[owner[k]]
  }

  ghost predicate OwnersHave<K(!new), V(!new)>(family: map<nat, map<K, V>>, m: map<K, V>, owner: map<K, nat>)
    requires owner.Keys == m.Keys
  {
    forall p, k :: p in family && k in family[p] ==> k in m && m[k] == family[p][k] && owner[k] == p
  }

  ghost predicate Union<K(!new), V(!new)>(family: map<nat, map<K, V>>, m: map<K, V>) {
    exists owner :: Owned(family, m, owner)
  }

  lemma UnionSet<K(!new), V(!new)>(family: map<nat, map<K, V>>, m: map<K, V>, p: nat, part: map<K, V>)
    requires Union(family, m) && (p in family ==> family[p] == map[]) && part.Keys !! m.Keys
    ensures Union(family[p := part], m + part)
  {
    var owner :| Owned(family, m, owner);
    var fromPart := map k | k in part :: p;
    SetHaveOwners(family, m, owner, p, part, fromPart);
    SetOwnersHave(family, m, owner, p, part, fromPart);
    assert Owned(family[p := part], m + part, owner + fromPart);
  }

  lemma SetHaveOwners<K(!new), V(!new)>(family: map<nat, map<K, V>>, m: map<K, V>, owner: map<K, nat>, p: nat, part: map<K, V>,
                                        fromPart: map<K, nat>)
    requires owner.Keys == m.Keys && HaveOwners(family, m, owner) && (p in family ==> family[p] == map[])
    requires fromPart.Keys == part.Keys && forall k :: k in part ==> fromPart[k] == p
    ensures (owner + fromPart).Keys == (m + part).Keys
    ensures HaveOwners(family[p := part], m + part, owner + fromPart)
  {
    forall k | k in m + part
      ensures var q := (owner + fromPart)[k]; q in family[p := part] && k in family[p := part][q]
    {
      if k !in part {
        assert owner[k] != p && k in family[owner[k]];
      }
    }
  }

  lemma SetOwnersHave<K(!new), V(!new)>(family: map<nat, map<K, V>>, m: map<K, V>, owner: map<K, nat>, p: nat, part: map<K, V>,
                                        fromPart: map<K, nat>)
    requires owner.Keys == m.Keys && OwnersHave(family, m, owner) && part.Keys !! m.Keys
    requires fromPart.Keys == part.Keys && forall k :: k in part ==> fromPart[k] == p
    ensures (owner + fromPart).Keys == (m + part).Keys
    ensures OwnersHave(family[p := part], m + part, owner + fromPart)
  {
    var family', m', owner' := family[p := part], m + part, owner + fromPart;
    forall q, k | q in family' && k in family'[q] ensures k in m' && m'[k] == family'[q][k] && owner'[k] == q {
      if q != p {
        assert k in family[q];
        assert k in m && k !in part;
      }
    }
  }

  lemma UnionClear<K(!new), V(!new)>(family: map<nat, map<K, V>>, m: map<K, V>, p: nat)
    requires Union(family, m) && p in family
    ensures Union(family[p := map[]], m - family[p].Keys)
  {
    var owner :| Owned(family, m, owner);
    ClearHaveOwners(family, m, owner, p);
    ClearOwnersHave(family, m, owner, p);
    assert Owned(family[p := map[]], m - family[p].Keys, owner - family[p].Keys);
  }

  lemma ClearHaveOwners<K(!new), V(!new)>(family: map<nat, map<K, V>>, m: map<K, V>, owner: map<K, nat>, p: nat)
    requires owner.Keys == m.Keys && HaveOwners(family, m, owner) && p in family
    ensures (owner - family[p].Keys).Keys == (m - family[p].Keys).Keys
    ensures HaveOwners(family[p := map[]], m - family[p].Keys, owner - family[p].Keys)
  {
    forall k | k in m - family[p].Keys
      ensures owner[k] in family[p := map[]] && k in family[p := map[]][owner[k]]
    {
      assert owner[k] in family && k in family[owner[k]];
    }
  }

  lemma ClearOwnersHave<K(!new), V(!new)>(family: map<nat, map<K, V>>, m: map<K, V>, owner: map<K, nat>, p: nat)
    requires owner.Keys == m.Keys && OwnersHave(family, m, owner) && p in family
    ensures (owner - family[p].Keys).Keys == (m - family[p].Keys).Keys
    ensures OwnersHave(family[p := map[]], m - family[p].Keys, owner - family[p].Keys)
  {
    var family', m' := family[p := map[]], m - family[p].Keys;
    forall q, k | q in family' && k in family'[q] ensures k in m' && m'[k] == family'[q][k] && owner[k] == q {
      assert q != p by {
        assert family'[p] == map[];
      }
      assert q in family && k in family[q] && family'[q] == family[q];
      assert owner[k] == q;
      assert k !in family[p];
    }
  }

  lemma UnionRemove<K(!new), V(!new)>(family: map<nat, map<K, V>>, m: map<K, V>, p: nat)
    requires Union(family, m) && p in family && family[p] == map[]
    ensures Union(family - {p}, m)
  {
    var owner :| Owned(family, m, owner);
    assert Owned(family - {p}, m, owner);
  }

  lemma UnionMember<K(!new), V(!new)>(family: map<nat, map<K, V>>, m: map<K, V>, p: nat)
    requires Union(family, m) && p in family
    ensures Within(family[p], m)
  {
    var owner :| Owned(family, m, owner);
  }

  lemma UnionOwner<K(!new), V(!new)>(family: map<nat, map<K, V>>, m: map<K, V>, k: K) returns (p: nat)
    requires Union(family, m) && k in m
    ensures p in family && k in family[p] && family[p][k] == m[k]
  {
    var owner :| Owned(family, m, owner);
    p := owner[k];
  }

  ghost function MapsOf(held: Holdings): map<nat, map<nat, Mapping>>
    requires HoldingsOk(held)
  {
    map p | p in held :: held[p].Maps(p)
  }

  ghost function LivesOf(held: Holdings): map<nat, map<nat, nat>>
    requires HoldingsOk(held)
  {
    map p | p in held :: held[p].Lives()
  }

  /** The device holds the given ranges: the mappings are those of the awake ones, no
      more and no less, and so are the handles, apart from leaked ones. */
  ghost predicate Matches(held: Holdings, leaked: set<nat>, reserved: map<nat, nat>, live: map<nat, nat>, mapped: map<nat, Mapping>) {
    && HoldingsOk(held) && ReservedMatch(held, reserved)
    && Union(MapsOf(held), mapped)
    && Union(LivesOf(held), live - leaked) && leaked <= live.Keys
  }

  // ----------------------------------------------------------------- transitions

  lemma MapsInside(held: Holdings, p: nat)
    requires HoldingsOk(held) && p in held
    ensures forall a :: a in held[p].Maps(p) ==>
      p <= a && held[p].Maps(p)[a].size > 0 && a + held[p].Maps(p)[a].size <= p + Sum(held[p].chunks)
  {
    if held[p].awake {
      MapOfInside(p, held[p].chunks, held[p].handles, |held[p].chunks|);
    }
  }

  lemma NewShape(held: Holdings, reserved: map<nat, nat>, p: nat, chunks: seq<nat>)
    requires HoldingsOk(held) && ReservedMatch(held, reserved) && p !in held && Positive(chunks)
    requires forall q :: q in reserved ==> Apart(q, reserved[q], p, Sum(chunks))
    ensures
      var held' := held[p := Holding(chunks, [], false)];
      && HoldingsOk(held') && ReservedMatch(held', reserved[p := Sum(chunks)])
      && MapsOf(held') == MapsOf(held)[p := map[]]
      && LivesOf(held') == LivesOf(held)[p := map[]]
  {
    var held' := held[p := Holding(chunks, [], false)];
    forall q | q in held ensures Apart(q, Sum(held[q].chunks), p, Sum(chunks)) {
      assert q in reserved;
    }
    assert HoldingsOk(held');
    NewFamilies(held, p, chunks);
  }

  lemma NewFamilies(held: Holdings, p: nat, chunks: seq<nat>)
    requires HoldingsOk(held) && p !in held && HoldingsOk(held[p := Holding(chunks, [], false)])
    ensures MapsOf(held[p := Holding(chunks, [], false)]) == MapsOf(held)[p := map[]]
    ensures LivesOf(held[p := Holding(chunks, [], false)]) == LivesOf(held)[p := map[]]
  {
  }

  lemma AddAsleep(held: Holdings, leaked: set<nat>, reserved: map<nat, nat>, live: map<nat, nat>, mapped: map<nat, Mapping>,
                  p: nat, chunks: seq<nat>)
    requires Matches(held, leaked, reserved, live, mapped)
    requires p !in held && Positive(chunks)
    requires forall q :: q in reserved ==> Apart(q, reserved[q], p, Sum(chunks))
    ensures Matches(held[p := Holding(chunks, [], false)], leaked, reserved[p := Sum(chunks)], live, mapped)
  {
    NewShape(held, reserved, p, chunks);
    UnionSet(MapsOf(held), mapped, p, map[]);
    UnionSet(LivesOf(held), live - leaked, p, map[]);
    PlusNothing(mapped);
    PlusNothing(live - leaked);
  }

  lemma PlusNothing<K, V>(m: map<K, V>)
    ensures m + map[] == m
  {
  }

  lemma MinusPlus<K, V>(m: map<K, V>, s: set<K>, part: map<K, V>)
    requires part.Keys !! s
    ensures (m + part) - s == (m - s) + part
  {
  }

  lemma MinusMinus<K, V>(m: map<K, V>, s: set<K>, t: set<K>)
    ensures (m - s) - t == (m - t) - s
  {
  }

  lemma SameRanges(held: Holdings, reserved: map<nat, nat>, p: nat, h': Holding)
    requires HoldingsOk(held) && p in held && h'.Ok() && h'.chunks == held[p].chunks && ReservedMatch(held, reserved)
    ensures HoldingsOk(held[p := h']) && ReservedMatch(held[p := h'], reserved)
  {
    var held' := held[p := h'];
    forall q, r | q in held' && r in held' && q != r
      ensures Apart(q, Sum(held'[q].chunks), r, Sum(held'[r].chunks))
    {
      assert Apart(q, Sum(held[q].chunks), r, Sum(held[r].chunks));
    }
  }

  lemma OneFamilyChanges(held: Holdings, p: nat, h': Holding)
    requires HoldingsOk(held) && p in held && h'.Ok() && HoldingsOk(held[p := h'])
    ensures MapsOf(held[p := h']) == MapsOf(held)[p := h'.Maps(p)]
    ensures LivesOf(held[p := h']) == LivesOf(held)[p := h'.Lives()]
  {
  }

  lemma SameShape(held: Holdings, reserved: map<nat, nat>, p: nat, h': Holding)
    requires HoldingsOk(held) && p in held && h'.Ok() && h'.chunks == held[p].chunks && ReservedMatch(held, reserved)
    ensures HoldingsOk(held[p := h']) && ReservedMatch(held[p := h'], reserved)
    ensures MapsOf(held[p := h']) == MapsOf(held)[p := h'.Maps(p)]
    ensures LivesOf(held[p := h']) == LivesOf(held)[p := h'.Lives()]
  {
    SameRanges(held, reserved, p, h');
    OneFamilyChanges(held, p, h');
  }

  lemma WakeUp(held: Holdings, leaked: set<nat>, reserved: map<nat, nat>, live: map<nat, nat>, mapped: map<nat, Mapping>,
               p: nat, handles: seq<nat>)
    requires Matches(held, leaked, reserved, live, mapped) && p in held && !held[p].awake
    requires |handles| == |held[p].chunks| && Distinct(handles)
    requires MapOf(p, held[p].chunks, handles, |handles|).Keys !! mapped.Keys
    requires LiveOf(held[p].chunks, handles, |handles|).Keys !! live.Keys
    ensures Matches(held[p := Holding(held[p].chunks, handles, true)], leaked, reserved,
                    live + LiveOf(held[p].chunks, handles, |handles|),
                    mapped + MapOf(p, held[p].chunks, handles, |handles|))
  {
    var h' := Holding(held[p].chunks, handles, true);
    var lives := h'.Lives();
    assert lives.Keys !! leaked;
    SameShape(held, reserved, p, h');
    assert Union(MapsOf(held[p := h']), mapped + h'.Maps(p)) by {
      UnionSet(MapsOf(held), mapped, p, h'.Maps(p));
    }
    assert Union(LivesOf(held[p := h']), (live - leaked) + lives) by {
      UnionSet(LivesOf(held), live - leaked, p, lives);
    }
    MinusPlus(live, leaked, lives);
  }

  lemma FallAsleep(held: Holdings, leaked: set<nat>, reserved: map<nat, nat>, live: map<nat, nat>, mapped: map<nat, Mapping>, p: nat)
    requires Matches(held, leaked, reserved, live, mapped) && p in held && held[p].awake
    ensures Matches(held[p := held[p].(awake := false)], leaked, reserved,
                    live - held[p].Lives().Keys, mapped - held[p].Maps(p).Keys)
  {
    var h' := held[p].(awake := false);
    var keys := held[p].Lives().Keys;
    SameShape(held, reserved, p, h');
    assert Union(MapsOf(held[p := h']), mapped - held[p].Maps(p).Keys) by {
      UnionClear(MapsOf(held), mapped, p);
    }
    assert Union(LivesOf(held[p := h']), (live - leaked) - keys) by {
      UnionClear(LivesOf(held), live - leaked, p);
    }
    assert keys !! leaked by {
      UnionMember(LivesOf(held), live - leaked, p);
    }
    MinusMinus(live, leaked, keys);
  }

  lemma RemoveAsleep(held: Holdings, leaked: set<nat>, reserved: map<nat, nat>, live: map<nat, nat>, mapped: map<nat, Mapping>, p: nat)
    requires Matches(held, leaked, reserved, live, mapped) && p in held && !held[p].awake
    ensures Matches(held - {p}, leaked, reserved - {p}, live, mapped)
  {
    var held' := held - {p};
    UnionRemove(MapsOf(held), mapped, p);
    UnionRemove(LivesOf(held), live - leaked, p);
    assert HoldingsOk(held');
    assert MapsOf(held') == MapsOf(held) - {p};
    assert LivesOf(held') == LivesOf(held) - {p};
  }

  lemma LeakHandle(held: Holdings, leaked: set<nat>, reserved: map<nat, nat>, live: map<nat, nat>, mapped: map<nat, Mapping>,
                   h: nat, size: nat)
    requires Matches(held, leaked, reserved, live, mapped) && h !in live
    ensures Matches(held, leaked + {h}, reserved, live[h := size], mapped)
  {
    assert live[h := size] - (leaked + {h}) == live - leaked;
  }

  /** A non-empty range can be given back exactly when nothing is mapped in it. */
  lemma RangeIsClear(held: Holdings, leaked: set<nat>, reserved: map<nat, nat>, live: map<nat, nat>, mapped: map<nat, Mapping>, p: nat)
    requires Matches(held, leaked, reserved, live, mapped) && p in held && held[p].chunks != []
    ensures !held[p].awake <==> Clear(mapped, p, Sum(held[p].chunks))
  {
    if held[p].awake {
      MapOfAt(p, held[p].chunks, held[p].handles, |held[p].chunks|, 0);
      MapsInside(held, p);
      assert p in held[p].Maps(p);
      UnionMember(MapsOf(held), mapped, p);
      assert !Apart(p, mapped[p].size, p, Sum(held[p].chunks));
    } else {
      forall a | a in mapped ensures Apart(a, mapped[a].size, p, Sum(held[p].chunks)) {
        var q := UnionOwner(MapsOf(held), mapped, a);
        MapsInside(held, q);
        assert Apart(q, Sum(held[q].chunks), p, Sum(held[p].chunks));
      }
    }
  }

  /** Nothing is mapped where chunk j would begin. */
  ghost predicate ChunkGone(mapped: map<nat, Mapping>, p: nat, cs: seq<nat>, j: nat)
    requires j < |cs|
  {
    p + Prefix(cs, j) !in mapped
  }

  /** Where an allocation sleeps, none of its chunks is mapped. */
  lemma NothingMapped(held: Holdings, leaked: set<nat>, reserved: map<nat, nat>, live: map<nat, nat>, mapped: map<nat, Mapping>, p: nat, j: nat)
    requires Matches(held, leaked, reserved, live, mapped) && p in held && !held[p].awake && j < |held[p].chunks|
    ensures ChunkGone(mapped, p, held[p].chunks, j)
  {
    MatchingMaps(held, leaked, reserved, live, mapped);
    hide Matches, Union, HoldingsOk, Prefix, Sum;
    PrefixBelow(held[p].chunks, j);
    NotMappedAt(held, mapped, p, p + Prefix(held[p].chunks, j));
  }

  lemma MatchingMaps(held: Holdings, leaked: set<nat>, reserved: map<nat, nat>, live: map<nat, nat>, mapped: map<nat, Mapping>)
    requires Matches(held, leaked, reserved, live, mapped)
    ensures HoldingsOk(held) && Union(MapsOf(held), mapped)
    ensures forall p :: p in held ==> Positive(held[p].chunks)
  {
    hide Union;
  }

  lemma NotMappedAt(held: Holdings, mapped: map<nat, Mapping>, p: nat, a: nat)
    requires HoldingsOk(held) && Union(MapsOf(held), mapped)
    requires p in held && !held[p].awake && p <= a < p + Sum(held[p].chunks)
    ensures a !in mapped
  {
    hide Union, Sum;
    if a in mapped {
      var q := UnionOwner(MapsOf(held), mapped, a);
      MapsInside(held, q);
    }
  }

  lemma {:induction false} PrefixBelow(cs: seq<nat>, j: nat)
    requires j < |cs| && Positive(cs)
    ensures Prefix(cs, j) < Sum(cs)
  {
    PrefixUpTo(cs, j + 1, |cs|);
  }

  lemma {:induction false} PrefixUpTo(cs: seq<nat>, i: nat, n: nat)
    requires i <= n <= |cs|
    ensures Prefix(cs, i) <= Prefix(cs, n)
  {
    if i < n {
      PrefixUpTo(cs, i, n - 1);
    }
  }

  ghost predicate InAwakeRange(held: Holdings, p: nat, x: nat) {
    p in held && held[p].awake && p <= x < p + Sum(held[p].chunks)
  }

  lemma CoveredIsAwake(held: Holdings, mapped: map<nat, Mapping>, x: nat) returns (p: nat)
    requires HoldingsOk(held) && Union(MapsOf(held), mapped) && Covers(mapped, x)
    ensures InAwakeRange(held, p, x)
  {
    var a: nat :| a in mapped && a <= x < a + mapped[a].size;
    p := UnionOwner(MapsOf(held), mapped, a);
    MapsInside(held, p);
  }

  lemma AwakeIsCovered(held: Holdings, mapped: map<nat, Mapping>, x: nat, p: nat)
    requires HoldingsOk(held) && Union(MapsOf(held), mapped) && InAwakeRange(held, p, x)
    ensures Covers(mapped, x)
  {
    ChunksTile(p, held[p].chunks, held[p].handles, |held[p].chunks|);
    assert Covers(held[p].Maps(p), x);
    var a :| a in held[p].Maps(p) && a <= x < a + held[p].Maps(p)[a].size;
    UnionMember(MapsOf(held), mapped, p);
  }

  /** Mapped memory is exactly the union of the ranges of the awake holdings. */
  lemma MappedIsAwakeRanges(held: Holdings, leaked: set<nat>, reserved: map<nat, nat>, live: map<nat, nat>, mapped: map<nat, Mapping>, x: nat)
    requires Matches(held, leaked, reserved, live, mapped)
    ensures Covers(mapped, x) <==> exists p :: InAwakeRange(held, p, x)
  {
    if Covers(mapped, x) {
      var p := CoveredIsAwake(held, mapped, x);
    }
    if p :| InAwakeRange(held, p, x) {
      AwakeIsCovered(held, mapped, x, p);
    }
  }

  /** With nothing held, the device is as it was at the start, up to leaked handles. */
  lemma NothingHeld(leaked: set<nat>, reserved: map<nat, nat>, live: map<nat, nat>, mapped: map<nat, Mapping>)
    requires Matches(map[], leaked, reserved, live, mapped)
    ensures reserved == map[] && mapped == map[] && live.Keys == leaked
  {
    assert MapsOf(map[]) == map[] && LivesOf(map[]) == map[];
    var owner :| Owned(map[], mapped, owner);
    var owner' :| Owned(map[], live - leaked, owner');
    assert forall h :: h in live && h !in leaked ==> h in live - leaked;
  }
}
