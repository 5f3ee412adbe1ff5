/**
 The bad-words logits processor: a mask on the next token, and what it guarantees of
 everything that is generated under it.
 */
module BadWords {
  import opened Wrappers

  datatype Logit = NegInf | Finite(value: real)

  function Add(a: Logit, b: Logit): Logit {
    if a.Finite? && b.Finite? then Finite(a.value + b.value) else NegInf
  }

  const Neutral := Finite(0.0)

  datatype Error =
    | OutOfVocabulary(ids: seq<int>)
    | EmptyWord

  type Word = seq<int>

  /** Choosing t after past would complete the word. */
  predicate Completes(w: Word, past: seq<int>, t: int) {
    && w != [] && w[|w| - 1] == t
    && |w| - 1 <= |past|
    && past[|past| - (|w| - 1)..] == w[..|w| - 1]
  }

  ghost predicate Blocked(words: seq<Word>, past: seq<int>, t: int) {
    exists w :: w in words && Completes(w, past, t)
  }

  /** What processing does to the logits: tokens that would complete a bad word get
      minus infinity, all others keep their logit. */
  ghost function Processed(words: seq<Word>, past: seq<int>, logits: seq<Logit>): (r: seq<Logit>)
    ensures |r| == |logits|
  {
    seq(|logits|, t requires 0 <= t < |logits| => if Blocked(words, past, t) then NegInf else logits[t])
  }

  predicate InVocabulary(words: seq<Word>, vocabSize: nat) {
    forall i, j :: 0 <= i < |words| && 0 <= j < |words[i]| ==> 0 <= words[i][j] < vocabSize
  }

  function InvalidIds(w: Word, vocabSize: nat): seq<int> {
    if w == [] then []
    else InvalidIds(w[..|w| - 1], vocabSize) +
         (if 0 <= w[|w| - 1] < vocabSize then [] else [w[|w| - 1]])
  }

  function AllInvalidIds(words: seq<Word>, vocabSize: nat): seq<int> {
    if words == [] then []
    else AllInvalidIds(words[..|words| - 1], vocabSize) + InvalidIds(words[|words| - 1], vocabSize)
  }

  lemma {:induction false} NoInvalidIds(w: Word, vocabSize: nat)
    ensures InvalidIds(w, vocabSize) == [] <==> forall j :: 0 <= j < |w| ==> 0 <= w[j] < vocabSize
  {
    if w != [] {
      NoInvalidIds(w[..|w| - 1], vocabSize);
    }
  }

  /** The error list is empty exactly when every token id is in the vocabulary. */
  lemma {:induction false} NothingInvalid(words: seq<Word>, vocabSize: nat)
    ensures AllInvalidIds(words, vocabSize) == [] <==> InVocabulary(words, vocabSize)
  {
    if words != [] {
      NothingInvalid(words[..|words| - 1], vocabSize);
      NoInvalidIds(words[|words| - 1], vocabSize);
    }
  }

  lemma {:induction false} InvalidIdsAre(w: Word, vocabSize: nat, id: int)
    ensures id in InvalidIds(w, vocabSize) <==> id in w && !(0 <= id < vocabSize)
  {
    if w != [] {
      InvalidIdsAre(w[..|w| - 1], vocabSize, id);
      assert w == w[..|w| - 1] + [w[|w| - 1]];
    }
  }

  ghost predicate InvalidAmong(id: int, words: seq<Word>, vocabSize: nat) {
    exists i :: 0 <= i < |words| && id in words[i] && !(0 <= id < vocabSize)
  }

  /** The error list holds exactly the ids of the words that are outside the vocabulary. */
  lemma {:induction false} AllInvalidIdsAre(words: seq<Word>, vocabSize: nat, id: int)
    ensures id in AllInvalidIds(words, vocabSize) <==> InvalidAmong(id, words, vocabSize)
  {
    if words != [] {
      var front, last := words[..|words| - 1], words[|words| - 1];
      AllInvalidIdsAre(front, vocabSize, id);
      InvalidIdsAre(last, vocabSize, id);
      InvalidAmongNext(id, front, last, vocabSize);
      assert words == front + [last];
      hide InvalidAmong, InvalidIds;
    }
  }

  lemma InvalidAmongNext(id: int, words: seq<Word>, w: Word, vocabSize: nat)
    ensures InvalidAmong(id, words + [w], vocabSize) <==>
            InvalidAmong(id, words, vocabSize) || (id in w && !(0 <= id < vocabSize))
  {
    var all := words + [w];
    assert all[|words|] == w && forall i :: 0 <= i < |words| ==> all[i] == words[i];
  }

  lemma {:induction false} InvalidIdsConcat(v: Word, w: Word, vocabSize: nat)
    ensures InvalidIds(v + w, vocabSize) == InvalidIds(v, vocabSize) + InvalidIds(w, vocabSize)
  {
    if w == [] {
      assert v + w == v;
    } else {
      var front, last := w[..|w| - 1], if 0 <= w[|w| - 1] < vocabSize then [] else [w[|w| - 1]];
      InvalidIdsConcat(v, front, vocabSize);
      assert (v + w)[..|v + w| - 1] == v + front;
      assert InvalidIds(v + w, vocabSize) == InvalidIds(v + front, vocabSize) + last;
      hide InvalidIds;
      Associates(InvalidIds(v, vocabSize), InvalidIds(front, vocabSize), last);
    }
  }

  /** The ids come in order of occurrence. */
  lemma InOrderOfOccurrence(words: seq<Word>, v: Word, w: Word, vocabSize: nat)
    ensures AllInvalidIds(words + [v + w], vocabSize)
         == AllInvalidIds(words, vocabSize) + InvalidIds(v, vocabSize) + InvalidIds(w, vocabSize)
  {
    var all := words + [v + w];
    assert all[..|all| - 1] == words && all[|all| - 1] == v + w;
    assert AllInvalidIds(all, vocabSize) == AllInvalidIds(words, vocabSize) + InvalidIds(v + w, vocabSize);
    hide *;
    InvalidIdsConcat(v, w, vocabSize);
    Associates(AllInvalidIds(words, vocabSize), InvalidIds(v, vocabSize), InvalidIds(w, vocabSize));
  }

  lemma Associates(a: seq<int>, b: seq<int>, c: seq<int>)
    ensures a + (b + c) == a + b + c
  {
  }

  /** The bias is minus infinity exactly for the words of one token. */
  ghost predicate Masks(bias: seq<Logit>, words: seq<Word>) {
    forall t :: 0 <= t < |bias| ==> bias[t] == if [t] in words then NegInf else Neutral
  }

  lemma MaskNext(bias: seq<Logit>, words: seq<Word>, w: Word)
    requires Masks(bias, words) && (|w| == 1 ==> 0 <= w[0] < |bias|)
    ensures Masks(if |w| == 1 then bias[w[0] := NegInf] else bias, words + [w])
  {
    var all := words + [w];
    assert forall v: Word :: v in all <==> v in words || v == w;
    if |w| == 1 {
      assert w == [w[0]];
    }
  }

  class NoBadWordsLogitsProcessor {
    const badWordsIds: seq<Word>
    var wordBias: Option<seq<Logit>>

    constructor (badWordsIds: seq<Word>)
      ensures this.badWordsIds == badWordsIds && Valid() && wordBias == None
    {
      this.badWordsIds := badWordsIds;
      wordBias := None;
    }

    /** Once computed, the word bias masks the one-token words. */
    ghost predicate Valid()
      reads this
    {
      wordBias.Some? ==> InVocabulary(badWordsIds, |wordBias.value|) && Masks(wordBias.value, badWordsIds)
    }

    method CheckTokenIdsBounds(vocabSize: nat) returns (invalid: seq<int>)
      ensures invalid == AllInvalidIds(badWordsIds, vocabSize)
    {
      invalid := [];
      for i := 0 to |badWordsIds|
        invariant invalid == AllInvalidIds(badWordsIds[..i], vocabSize)
      {
        ghost var before := invalid;
        var w := badWordsIds[i];
        for j := 0 to |w|
          invariant invalid == before + InvalidIds(w[..j], vocabSize)
        {
          assert w[..j + 1][..j] == w[..j];
          if w[j] < 0 || w[j] >= vocabSize {
            invalid := invalid + [w[j]];
          }
        }
        assert w[..|w|] == w;
        assert badWordsIds[..i + 1][..i] == badWordsIds[..i];
      }
      assert badWordsIds[..|badWordsIds|] == badWordsIds;
    }

    method InitWordBias(vocabSize: nat) returns (invalid: seq<int>)
      requires wordBias == None
      modifies this
      ensures invalid == AllInvalidIds(badWordsIds, vocabSize)
      ensures invalid != [] ==> wordBias == None
      ensures invalid == [] ==> wordBias.Some? && |wordBias.value| == vocabSize && Valid()
    {
      invalid := CheckTokenIdsBounds(vocabSize);
      NothingInvalid(badWordsIds, vocabSize);
      if invalid != [] {
        return;
      }
      hide AllInvalidIds;
      var bias := seq(vocabSize, _ => Neutral);
      assert Masks(bias, badWordsIds[..0]);
      hide Masks;
      for i := 0 to |badWordsIds|
        invariant |bias| == vocabSize && Masks(bias, badWordsIds[..i])
      {
        var w := badWordsIds[i];
        MaskNext(bias, badWordsIds[..i], w);
        if |w| == 1 {
          bias := bias[w[0] := NegInf];
        }
        assert badWordsIds[..i + 1] == badWordsIds[..i] + [w];
      }
      assert badWordsIds[..|badWordsIds|] == badWordsIds;
      wordBias := Some(bias);
    }

    /** The loop over the words of two tokens or more; None where an empty word is indexed. */
    method LastTokenBias(pastTokensIds: seq<int>, vocabSize: nat) returns (r: Option<seq<Logit>>)
      requires InVocabulary(badWordsIds, vocabSize)
      ensures r.Some? <==> [] !in badWordsIds
      ensures r.Some? ==>
        && |r.value| == vocabSize
        && forall t :: 0 <= t < vocabSize ==>
             r.value[t] == if BlockedByLong(badWordsIds, |badWordsIds|, pastTokensIds, t) then NegInf else Neutral
    {
      var bias := seq(vocabSize, _ => Neutral);
      for i := 0 to |badWordsIds|
        invariant |bias| == vocabSize
        invariant [] !in badWordsIds[..i]
        invariant forall t :: 0 <= t < vocabSize ==>
          bias[t] == if BlockedByLong(badWordsIds, i, pastTokensIds, t) then NegInf else Neutral
      {
        hide BlockedByLong;
        var w := badWordsIds[i];
        assert badWordsIds[..i + 1] == badWordsIds[..i] + [w];
        forall t ensures BlockedByLong(badWordsIds, i + 1, pastTokensIds, t) <==>
                         BlockedByLong(badWordsIds, i, pastTokensIds, t) || (|w| >= 2 && Completes(w, pastTokensIds, t))
        {
          BlockedByNext(badWordsIds, i, pastTokensIds, t);
        }
        if |w| == 1 {
          continue;
        }
        if |w| > |pastTokensIds| + 1 {
          continue;
        }
        if w == [] {
          return None;
        }
        var prefixLength := |w| - 1;
        var lastTokenId := w[|w| - 1];
        var isMatch := pastTokensIds[|pastTokensIds| - prefixLength..] == w[..prefixLength];
        assert isMatch <==> Completes(w, pastTokensIds, lastTokenId);
        bias := bias[lastTokenId := Add(bias[lastTokenId], if isMatch then NegInf else Neutral)];
      }
      assert badWordsIds[..|badWordsIds|] == badWordsIds;
      return Some(bias);
    }

    /** Masks the logits of the next token. It raises for a token id outside the
        vocabulary, on the first call, and for an empty bad word, on every call. */
    method Process(pastTokensIds: seq<int>, logits: seq<Logit>) returns (r: Result<seq<Logit>, Error>)
      requires Valid() && (wordBias.Some? ==> |wordBias.value| == |logits|)
      modifies this
      ensures Valid() && (wordBias.Some? ==> |wordBias.value| == |logits|)
      ensures r.Ok? <==> InVocabulary(badWordsIds, |logits|) && [] !in badWordsIds
      ensures match r
        case Ok(out) => out == Processed(badWordsIds, pastTokensIds, logits)
        case Err(OutOfVocabulary(ids)) => old(wordBias) == None && ids == AllInvalidIds(badWordsIds, |logits|) != []
        case Err(EmptyWord) => InVocabulary(badWordsIds, |logits|) && [] in badWordsIds
    {
      NothingInvalid(badWordsIds, |logits|);
      if wordBias == None {
        var invalid := InitWordBias(|logits|);
        if invalid != [] {
          return Err(OutOfVocabulary(invalid));
        }
      }
      var last := LastTokenBias(pastTokensIds, |logits|);
      if last == None {
        return Err(EmptyWord);
      }
      var lastTokenBias := last.value;
      var bias := wordBias.value;
      var out := seq(|logits|, t requires 0 <= t < |logits| => Add(Add(logits[t], bias[t]), lastTokenBias[t]));
      forall t | 0 <= t < |logits| ensures out[t] == Processed(badWordsIds, pastTokensIds, logits)[t] {
        BlockedIsEither(badWordsIds, pastTokensIds, t);
      }
      assert out == Processed(badWordsIds, pastTokensIds, logits);
      return Ok(out);
    }
  }

  /** Blocked by one of the first i words, of two tokens or more. */
  ghost predicate BlockedByLong(words: seq<Word>, i: nat, past: seq<int>, t: int)
    requires i <= |words|
  {
    exists j :: 0 <= j < i && |words[j]| >= 2 && Completes(words[j], past, t)
  }

  lemma BlockedByNext(words: seq<Word>, i: nat, past: seq<int>, t: int)
    requires i < |words|
    ensures BlockedByLong(words, i + 1, past, t) <==>
            BlockedByLong(words, i, past, t) || (|words[i]| >= 2 && Completes(words[i], past, t))
  {
    hide Completes;
  }

  lemma BlockedIsEither(words: seq<Word>, past: seq<int>, t: int)
    ensures Blocked(words, past, t) <==> [t] in words || BlockedByLong(words, |words|, past, t)
  {
    if [t] in words {
      assert Completes([t], past, t);
    }
    if Blocked(words, past, t) {
      var w :| w in words && Completes(w, past, t);
      var j :| 0 <= j < |words| && words[j] == w;
      if |w| == 1 {
        assert w == [t];
      }
    }
    if BlockedByLong(words, |words|, past, t) {
      var j :| 0 <= j < |words| && |words[j]| >= 2 && Completes(words[j], past, t);
      assert words[j] in words;
    }
  }

  // -------------------------------------------------------------- generation runs

  /** tokens were generated one by one, each with a finite processed logit. */
  ghost predicate Generated(words: seq<Word>, tokens: seq<int>, logitsAt: seq<seq<Logit>>) {
    && |logitsAt| == |tokens|
    && forall k :: 0 <= k < |tokens| ==>
         0 <= tokens[k] < |logitsAt[k]| && Processed(words, tokens[..k], logitsAt[k])[tokens[k]].Finite?
  }

  ghost predicate OccursAt(w: Word, tokens: seq<int>, i: nat) {
    i + |w| <= |tokens| && tokens[i..i + |w|] == w
  }

  /** No non-empty bad word occurs anywhere in what was generated. */
  lemma NoBadWordEverAppears(words: seq<Word>, tokens: seq<int>, logitsAt: seq<seq<Logit>>, w: Word, i: nat)
    requires Generated(words, tokens, logitsAt) && w in words && w != []
    ensures !OccursAt(w, tokens, i)
  {
    if OccursAt(w, tokens, i) {
      var k := i + |w| - 1;
      var past := tokens[..k];
      assert tokens[i..i + |w|][|w| - 1] == tokens[k];
      assert past[|past| - (|w| - 1)..] == tokens[i..i + |w|][..|w| - 1];
      assert Completes(w, past, tokens[k]);
    }
  }

  /** Choosing t would make a non-empty bad word end there. */
  ghost predicate EndsBadWord(words: seq<Word>, past: seq<int>, t: int) {
    exists w :: w in words && w != [] && |w| <= |past| + 1 && OccursAt(w, past + [t], |past| + 1 - |w|)
  }

  /** A logit becomes minus infinity where the token would end an occurrence of a bad word,
      and stays as it is everywhere else. */
  lemma BlocksOnlyCompletions(words: seq<Word>, past: seq<int>, logits: seq<Logit>, t: nat)
    requires t < |logits|
    ensures Processed(words, past, logits)[t] == if EndsBadWord(words, past, t) then NegInf else logits[t]
  {
    forall w: Word ensures w != [] && |w| <= |past| + 1 && OccursAt(w, past + [t], |past| + 1 - |w|) <==> Completes(w, past, t) {
      if w != [] && |w| <= |past| + 1 {
        EndsIsCompletes(w, past, t);
      }
    }
    hide OccursAt, Completes;
  }

  lemma EndsIsCompletes(w: Word, past: seq<int>, t: int)
    requires w != [] && |w| <= |past| + 1
    ensures OccursAt(w, past + [t], |past| + 1 - |w|) <==> Completes(w, past, t)
  {
    var all, at := past + [t], |past| + 1 - |w|;
    assert all[at..at + |w|] == past[at..] + [t];
    assert w == w[..|w| - 1] + [w[|w| - 1]];
  }

  /** A whole run with one processor: every token picked is generated, up to the first
      step that has a reason to stop. */
  method Generate(words: seq<Word>, vocabSize: nat, logitsAt: seq<seq<Logit>>, picks: seq<int>) returns (tokens: seq<int>)
    requires |picks| == |logitsAt| && forall k :: 0 <= k < |logitsAt| ==> |logitsAt[k]| == vocabSize
    ensures |tokens| <= |logitsAt| && tokens == picks[..|tokens|]
    ensures forall w, i: nat :: w in words && w != [] ==> !OccursAt(w, tokens, i)
    ensures |tokens| < |logitsAt| ==> StopsAt(words, vocabSize, tokens, logitsAt[|tokens|], picks[|tokens|])
  {
    var processor := new NoBadWordsLogitsProcessor(words);
    tokens := [];
    for k := 0 to |logitsAt|
      invariant processor.Valid() && fresh(processor) && processor.badWordsIds == words
      invariant processor.wordBias.Some? ==> |processor.wordBias.value| == vocabSize
      invariant tokens == picks[..k] && Generated(words, tokens, logitsAt[..k])
    {
      var r := processor.Process(tokens, logitsAt[k]);
      if r.Err? || !(0 <= picks[k] < vocabSize) || r.value[picks[k]] == NegInf {
        NothingBad(words, tokens, logitsAt[..k]);
        return;
      }
      GeneratedStep(words, tokens, logitsAt[..k], picks[k], logitsAt[k]);
      assert logitsAt[..k + 1] == logitsAt[..k] + [logitsAt[k]];
      tokens := tokens + [picks[k]];
    }
    NothingBad(words, tokens, logitsAt[..|logitsAt|]);
  }

  /** The only reasons to stop early: the processor raises, or the pick is no token or
      has minus infinity as its processed logit. */
  ghost predicate StopsAt(words: seq<Word>, vocabSize: nat, tokens: seq<int>, logits: seq<Logit>, pick: int)
    requires |logits| == vocabSize
  {
    || !InVocabulary(words, vocabSize) || [] in words
    || !(0 <= pick < vocabSize) || Processed(words, tokens, logits)[pick] == NegInf
  }

  lemma GeneratedStep(words: seq<Word>, tokens: seq<int>, logitsAt: seq<seq<Logit>>, t: int, logits: seq<Logit>)
    requires Generated(words, tokens, logitsAt) && 0 <= t < |logits| && Processed(words, tokens, logits)[t].Finite?
    ensures Generated(words, tokens + [t], logitsAt + [logits])
  {
    var tokens' := tokens + [t];
    forall k | 0 <= k < |tokens'| ensures tokens'[..k] == if k < |tokens| then tokens[..k] else tokens {
    }
  }

  lemma NothingBad(words: seq<Word>, tokens: seq<int>, logitsAt: seq<seq<Logit>>)
    requires Generated(words, tokens, logitsAt)
    ensures forall w, i: nat :: w in words && w != [] ==> !OccursAt(w, tokens, i)
  {
    forall w, i: nat | w in words && w != [] ensures !OccursAt(w, tokens, i) {
      NoBadWordEverAppears(words, tokens, logitsAt, w, i);
    }
  }

  // --------------------------------------------------------- bad words from strings

  /** The characters that str.lstrip drops. */
  predicate IsSpace(c: char) {
    || 9 <= c as int <= 13 || 28 <= c as int <= 32
    || c as int in {0x85, 0xA0, 0x1680, 0x2028, 0x2029, 0x202F, 0x205F, 0x3000}
    || 0x2000 <= c as int <= 0x200A
  }

  function LStrip(s: string): string {
    if s != [] && IsSpace(s[0]) then LStrip(s[1..]) else s
  }

  /** Stripping drops the first characters as long as they are white space. */
  lemma {:induction false} LStripDrops(s: string) returns (n: nat)
    ensures n <= |s| && LStrip(s) == s[n..]
    ensures (forall i :: 0 <= i < n ==> IsSpace(s[i])) && (n < |s| ==> !IsSpace(s[n]))
  {
    hide IsSpace;
    if s != [] && IsSpace(s[0]) {
      var m := LStripDrops(s[1..]);
      n := m + 1;
      assert s[1..][m..] == s[n..];
      forall i | 0 <= i < n ensures IsSpace(s[i]) {
        assert i > 0 ==> s[i] == s[1..][i - 1];
      }
    } else {
      n := 0;
    }
  }

  lemma LStripFirst(c: char, s: string)
    ensures c in {' ', '\t', '\n', '\r'} ==> LStrip([c] + s) == LStrip(s)
    ensures '!' <= c <= '~' ==> LStrip([c] + s) == [c] + s
  {
    assert ([c] + s)[1..] == s;
  }

  /** Leading blanks, tabs and line ends go; a printable character stops the stripping. */
  lemma {:induction false} LStripStops(blanks: string, c: char, s: string)
    requires forall i :: 0 <= i < |blanks| ==> blanks[i] in {' ', '\t', '\n', '\r'}
    requires '!' <= c <= '~'
    ensures LStrip(blanks + [c] + s) == [c] + s
  {
    hide LStrip;
    if blanks == [] {
      LStripFirst(c, s);
      assert blanks + [c] + s == [c] + s;
    } else {
      LStripStops(blanks[1..], c, s);
      LStripFirst(blanks[0], blanks[1..] + [c] + s);
      assert blanks + [c] + s == [blanks[0]] + (blanks[1..] + [c] + s);
    }
  }

  /** Both encodings that the construction indexes have a first token. */
  predicate Encodable(badWord: string, encode: string -> seq<int>) {
    encode(LStrip(badWord)) != [] && encode(" " + LStrip(badWord)) != []
  }

  ghost predicate IsFormOf(w: Word, badWord: string, encode: string -> seq<int>) {
    var plain, spaced := encode(LStrip(badWord)), encode(" " + LStrip(badWord));
    w == plain || (w == spaced && |spaced| == |plain| && spaced != [] && plain != [] && spaced[0] != plain[0])
  }

  ghost predicate IsFormAmong(w: Word, badWords: seq<string>, encode: string -> seq<int>) {
    exists i :: 0 <= i < |badWords| && IsFormOf(w, badWords[i], encode)
  }

  /** The words appended for one bad word. */
  function FormsOf(badWord: string, encode: string -> seq<int>): seq<Word> {
    var plain, spaced := encode(LStrip(badWord)), encode(" " + LStrip(badWord));
    [plain] + if spaced != [] && plain != [] && spaced[0] != plain[0] && |spaced| == |plain| then [spaced] else []
  }

  function AllForms(badWords: seq<string>, encode: string -> seq<int>): seq<Word> {
    if badWords == [] then []
    else AllForms(badWords[..|badWords| - 1], encode) + FormsOf(badWords[|badWords| - 1], encode)
  }

  lemma FormsAre(badWord: string, encode: string -> seq<int>, w: Word)
    ensures w in FormsOf(badWord, encode) <==> IsFormOf(w, badWord, encode)
  {
    hide LStrip;
  }

  lemma {:induction false} AllFormsAre(badWords: seq<string>, encode: string -> seq<int>, w: Word)
    ensures w in AllForms(badWords, encode) <==> IsFormAmong(w, badWords, encode)
  {
    hide FormsOf, IsFormOf;
    if badWords != [] {
      var front, last := badWords[..|badWords| - 1], badWords[|badWords| - 1];
      AllFormsAre(front, encode, w);
      FormsAre(last, encode, w);
      if IsFormAmong(w, front, encode) {
        var i :| 0 <= i < |front| && IsFormOf(w, front[i], encode);
        assert badWords[i] == front[i];
      }
    }
  }

  lemma {:induction false} NoEmptyForm(badWords: seq<string>, encode: string -> seq<int>)
    requires forall i :: 0 <= i < |badWords| ==> Encodable(badWords[i], encode)
    ensures [] !in AllForms(badWords, encode)
  {
    hide LStrip;
    if badWords != [] {
      NoEmptyForm(badWords[..|badWords| - 1], encode);
    }
  }

  /** The token ids of the bad words, each as at the start of a text and, where that
      makes a different word of the same length, as after a space. None where an empty
      encoding is indexed. */
  method BadWordsIds(badWords: seq<string>, encode: string -> seq<int>) returns (r: Option<seq<Word>>)
    ensures r.Some? <==> forall i :: 0 <= i < |badWords| ==> Encodable(badWords[i], encode)
    ensures r.Some? ==> [] !in r.value
    ensures r.Some? ==> forall w :: w in r.value <==> IsFormAmong(w, badWords, encode)
    ensures r.Some? ==> forall i :: 0 <= i < |badWords| ==>
      var plain, spaced := encode(LStrip(badWords[i])), encode(" " + LStrip(badWords[i]));
      plain in r.value && (|spaced| == |plain| && spaced != [] && spaced[0] != plain[0] ==> spaced in r.value)
  {
    hide IsFormAmong, LStrip, AllForms;
    assert AllForms([], encode) == [] by {
      NoForms(encode);
    }
    var ids: seq<Word> := [];
    for i := 0 to |badWords|
      invariant forall j :: 0 <= j < i ==> Encodable(badWords[j], encode)
      invariant ids == AllForms(badWords[..i], encode)
    {
      var plain := encode(LStrip(badWords[i]));
      var spaced := encode(" " + LStrip(badWords[i]));
      if spaced == [] || plain == [] {
        return None;
      }
      AllFormsNext(badWords, i, encode);
      ids := ids + [plain];
      if spaced[0] != plain[0] && |spaced| == |plain| {
        ids := ids + [spaced];
      }
    }
    assert badWords[..|badWords|] == badWords;
    NoEmptyForm(badWords, encode);
    forall w ensures w in ids <==> IsFormAmong(w, badWords, encode) {
      AllFormsAre(badWords, encode, w);
    }
    forall i | 0 <= i < |badWords|
      ensures
        var plain, spaced := encode(LStrip(badWords[i])), encode(" " + LStrip(badWords[i]));
        plain in ids && (|spaced| == |plain| && spaced != [] && spaced[0] != plain[0] ==> spaced in ids)
    {
      BothAreForms(badWords, i, encode);
    }
    return Some(ids);
  }

  lemma BothAreForms(badWords: seq<string>, i: nat, encode: string -> seq<int>)
    requires i < |badWords|
    ensures
      var plain, spaced := encode(LStrip(badWords[i])), encode(" " + LStrip(badWords[i]));
      && IsFormAmong(plain, badWords, encode)
      && (|spaced| == |plain| && spaced != [] && spaced[0] != plain[0] ==> IsFormAmong(spaced, badWords, encode))
  {
    hide LStrip;
    var plain, spaced := encode(LStrip(badWords[i])), encode(" " + LStrip(badWords[i]));
    assert IsFormOf(plain, badWords[i], encode);
    if |spaced| == |plain| && spaced != [] && spaced[0] != plain[0] {
      assert IsFormOf(spaced, badWords[i], encode);
    }
  }

  lemma NoForms(encode: string -> seq<int>)
    ensures AllForms([], encode) == []
  {
  }

  lemma AllFormsNext(badWords: seq<string>, n: nat, encode: string -> seq<int>)
    requires n < |badWords|
    ensures AllForms(badWords[..n + 1], encode) == AllForms(badWords[..n], encode) + FormsOf(badWords[n], encode)
  {
    hide FormsOf;
    assert badWords[..n + 1][..n] == badWords[..n];
  }
}
