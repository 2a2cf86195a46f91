/** The `/voices` route: the catalogue returned by `getVoiceList()`, narrowed by
    an optional `search` parameter to the voices whose lower-cased id contains
    the lower-cased form of at least one search term. */
module Voices {
  import opened Http
  import opened Strings

  /** `terms.some(s => hay.includes(s.toLowerCase()))`, where `hay` is already
      lower-cased by the caller. */
  function SomeIncludes(hay: string, terms: seq<string>): (b: bool)
    ensures b <==> exists k :: 0 <= k < |terms| && Contains(hay, Lower(terms[k]))
    decreases |terms|
  {
    if |terms| == 0 then
      false
    else if Includes(hay, Lower(terms[0])) then
      true
    else
      assert forall k :: 1 <= k < |terms| ==> terms[k] == terms[1..][k - 1];
      SomeIncludes(hay, terms[1..])
  }

  /** The search terms a query value carries. */
  function Terms(search: QueryValue): seq<string>
  {
    match search
    case Many(terms) => terms
    case Scalar(s) => [s]
    case Absent => []
  }

  /** The filter callback: whether `voice` is kept for a given `search`. A
      voice is kept iff its lower-cased id contains the lower-cased form of
      one of the search terms. The route consults it only when `search` is
      truthy; an absent `search` carries no term and keeps nothing here. */
  function Keep(voice: string, search: QueryValue): (b: bool)
    ensures b <==>
              exists k :: 0 <= k < |Terms(search)| && Contains(Lower(voice), Lower(Terms(search)[k]))
  {
    match search
    case Many(terms) =>
      assert Terms(search) == terms;
      SomeIncludes(Lower(voice), terms)
    case Scalar(s) =>
      assert Terms(search)[0] == s;
      assert Contains(Lower(voice), Lower(s)) ==>
               0 <= 0 < |Terms(search)| && Contains(Lower(voice), Lower(Terms(search)[0]));
      Includes(Lower(voice), Lower(s))
    case Absent => false
  }

  /** `voices.filter(voice => Keep(voice, search))`. */
  function FilterSeq(voices: seq<string>, search: QueryValue): (r: seq<string>)
    ensures |r| <= |voices|
    ensures forall i :: 0 <= i < |r| ==> Keep(r[i], search)
    ensures forall v :: v in r ==> v in voices
    decreases |voices|
  {
    if |voices| == 0 then
      []
    else
      (if Keep(voices[0], search) then [voices[0]] else []) + FilterSeq(voices[1..], search)
  }

  /** The list the `/voices` route answers with. */
  function FilterVoices(voices: seq<string>, search: QueryValue): (r: seq<string>)
    ensures Falsy(search) ==> r == voices
    ensures !Falsy(search) ==> forall i :: 0 <= i < |r| ==> Keep(r[i], search)
    ensures |r| <= |voices|
  {
    if Falsy(search) then voices else FilterSeq(voices, search)
  }

  /** The `/voices` handler: status 200, body `{ voices }`, no library call
      other than the catalogue lookup, whose result is `catalog`. */
  function VoicesRoute(catalog: seq<string>, search: QueryValue): (h: Handled)
    ensures h.calls == []
    ensures h.response.status == StatusOk && h.response.body.VoicesBody?
    ensures IsSubsequence(h.response.body.voices, catalog)
    ensures Falsy(search) ==> h.response.body.voices == catalog
    ensures forall v :: v in h.response.body.voices <==> v in catalog && (Falsy(search) || Keep(v, search))
    ensures forall v :: multiset(h.response.body.voices)[v] ==
                          if Falsy(search) || Keep(v, search) then multiset(catalog)[v] else 0
  {
    FilterIsSubsequence(catalog, search);
    FilterMembership(catalog, search);
    FilterSeqCounts(catalog, search);
    Handled(Response(StatusOk, VoicesBody(FilterVoices(catalog, search))), [])
  }

  // ---------------------------------------------------------------------------
  // Subsequences

  /** `idx` lists, strictly increasing, the positions of `s` at which the
      elements of `sub` are found. */
  ghost predicate IsEmbedding<T>(idx: seq<int>, sub: seq<T>, s: seq<T>)
  {
    && |idx| == |sub|
    && (forall k :: 0 <= k < |idx| ==> 0 <= idx[k] < |s| && sub[k] == s[idx[k]])
    && (forall k, l :: 0 <= k < l < |idx| ==> idx[k] < idx[l])
  }

  /** `sub` is `s` with some entries dropped and the rest in their order. */
  ghost predicate IsSubsequence<T>(sub: seq<T>, s: seq<T>)
  {
    exists idx :: IsEmbedding(idx, sub, s)
  }

  /** The positions of `voices` that the filter keeps. */
  ghost function KeptIndices(voices: seq<string>, search: QueryValue): seq<int>
    decreases |voices|
  {
    if |voices| == 0 then
      []
    else
      var rest := KeptIndices(voices[1..], search);
      (if Keep(voices[0], search) then [0] else []) + seq(|rest|, k requires 0 <= k < |rest| => rest[k] + 1)
  }

  lemma {:induction false} KeptIndicesEmbed(voices: seq<string>, search: QueryValue)
    ensures IsEmbedding(KeptIndices(voices, search), FilterSeq(voices, search), voices)
    decreases |voices|
  {
    if |voices| > 0 {
      var tail := voices[1..];
      KeptIndicesEmbed(tail, search);
      var rest := KeptIndices(tail, search);
      var shifted := seq(|rest|, k requires 0 <= k < |rest| => rest[k] + 1);
      assert IsEmbedding(shifted, FilterSeq(tail, search), voices) by {
        forall k | 0 <= k < |shifted|
          ensures 0 <= shifted[k] < |voices| && FilterSeq(tail, search)[k] == voices[shifted[k]]
        {
          assert voices[shifted[k]] == tail[rest[k]];
        }
      }
    }
  }

  /** Filtering never adds or reorders entries. */
  lemma FilterIsSubsequence(voices: seq<string>, search: QueryValue)
    ensures IsSubsequence(FilterVoices(voices, search), voices)
  {
    if Falsy(search) {
      var idx := seq(|voices|, k requires 0 <= k < |voices| => k);
      assert IsEmbedding(idx, voices, voices);
    } else {
      KeptIndicesEmbed(voices, search);
    }
  }

  // ---------------------------------------------------------------------------
  // Contents

  /** The filter keeps every copy of a kept voice and no copy of another. */
  lemma {:induction false} FilterSeqCounts(voices: seq<string>, search: QueryValue)
    ensures forall v :: multiset(FilterSeq(voices, search))[v] ==
                          if Keep(v, search) then multiset(voices)[v] else 0
    decreases |voices|
  {
    if |voices| > 0 {
      FilterSeqCounts(voices[1..], search);
      assert voices == [voices[0]] + voices[1..];
      assert multiset(voices) == multiset([voices[0]]) + multiset(voices[1..]);
    }
  }

  /** A voice is in the answer iff it is in the catalogue and, when a search is
      given, matches it. */
  lemma FilterMembership(voices: seq<string>, search: QueryValue)
    ensures forall v :: v in FilterVoices(voices, search) <==> v in voices && (Falsy(search) || Keep(v, search))
  {
    FilterSeqCounts(voices, search);
    forall v
      ensures v in FilterSeq(voices, search) <==> v in voices && Keep(v, search)
    {
      assert v in FilterSeq(voices, search) <==> multiset(FilterSeq(voices, search))[v] > 0;
      assert v in voices <==> multiset(voices)[v] > 0;
    }
  }

  /** A list every entry of which is kept passes the filter unchanged. */
  lemma {:induction false} FilterSeqKeepsAll(voices: seq<string>, search: QueryValue)
    requires forall i :: 0 <= i < |voices| ==> Keep(voices[i], search)
    ensures FilterSeq(voices, search) == voices
    decreases |voices|
  {
    if |voices| > 0 {
      FilterSeqKeepsAll(voices[1..], search);
    }
  }

  /** Filtering twice with the same search is filtering once. */
  lemma FilterIdempotent(voices: seq<string>, search: QueryValue)
    ensures FilterVoices(FilterVoices(voices, search), search) == FilterVoices(voices, search)
  {
    if !Falsy(search) {
      FilterSeqKeepsAll(FilterSeq(voices, search), search);
    }
  }

  // ---------------------------------------------------------------------------
  // Scalar and array searches

  /** A scalar `search` behaves exactly like the one-element array `[search]`,
      including the empty string, which is falsy as a scalar and matches every
      voice as an array element. */
  lemma ScalarIsSingletonArray(voices: seq<string>, s: string)
    ensures FilterVoices(voices, Scalar(s)) == FilterVoices(voices, Many([s]))
  {
    if s == "" {
      forall i | 0 <= i < |voices|
        ensures Keep(voices[i], Many([s]))
      {
        IncludesEmpty(Lower(voices[i]));
      }
      FilterSeqKeepsAll(voices, Many([s]));
    } else {
      FilterSeqSameKeep(voices, Scalar(s), Many([s]));
    }
  }

  /** Two searches that agree on every voice of the list filter it alike. */
  lemma {:induction false} FilterSeqSameKeep(voices: seq<string>, a: QueryValue, b: QueryValue)
    requires forall i :: 0 <= i < |voices| ==> Keep(voices[i], a) == Keep(voices[i], b)
    ensures FilterSeq(voices, a) == FilterSeq(voices, b)
    decreases |voices|
  {
    if |voices| > 0 {
      FilterSeqSameKeep(voices[1..], a, b);
    }
  }

  // ---------------------------------------------------------------------------
  // Case insensitivity

  /** The search with every term lower-cased. */
  function LowerSearch(search: QueryValue): QueryValue
  {
    match search
    case Many(terms) => Many(seq(|terms|, k requires 0 <= k < |terms| => Lower(terms[k])))
    case Scalar(s) => Scalar(Lower(s))
    case Absent => Absent
  }

  function LowerAll(voices: seq<string>): seq<string>
  {
    seq(|voices|, k requires 0 <= k < |voices| => Lower(voices[k]))
  }

  lemma KeepIgnoresTermCase(voice: string, search: QueryValue)
    ensures Keep(voice, LowerSearch(search)) == Keep(voice, search)
  {
    match search
    case Many(terms) =>
      var lowered := LowerSearch(search).values;
      forall k | 0 <= k < |terms|
        ensures Lower(lowered[k]) == Lower(terms[k])
      {
        LowerIdempotent(terms[k]);
      }
    case Scalar(s) =>
      LowerIdempotent(s);
    case Absent =>
  }

  /** Lower-casing the search terms does not change the answer. */
  lemma FilterIgnoresTermCase(voices: seq<string>, search: QueryValue)
    ensures FilterVoices(voices, LowerSearch(search)) == FilterVoices(voices, search)
  {
    assert Falsy(LowerSearch(search)) == Falsy(search) by {
      if search.Scalar? {
        assert |Lower(search.value)| == |search.value|;
      }
    }
    forall i | 0 <= i < |voices|
      ensures Keep(voices[i], LowerSearch(search)) == Keep(voices[i], search)
    {
      KeepIgnoresTermCase(voices[i], search);
    }
    FilterSeqSameKeep(voices, LowerSearch(search), search);
  }

  /** Whether a voice is kept depends only on its lower-cased id. */
  lemma KeepIgnoresVoiceCase(voice: string, search: QueryValue)
    ensures Keep(Lower(voice), search) == Keep(voice, search)
  {
    LowerIdempotent(voice);
  }

  lemma LowerAllConcat(a: seq<string>, b: seq<string>)
    ensures LowerAll(a + b) == LowerAll(a) + LowerAll(b)
  {
  }

  /** Filtering a lower-cased catalogue gives the lower-cased answer: the
      filter cannot tell a voice id from its lower-cased form. */
  lemma {:induction false} FilterIgnoresVoiceCase(voices: seq<string>, search: QueryValue)
    ensures FilterVoices(LowerAll(voices), search) == LowerAll(FilterVoices(voices, search))
    decreases |voices|
  {
    if !Falsy(search) && |voices| > 0 {
      var tail := voices[1..];
      var lowered := LowerAll(voices);
      FilterIgnoresVoiceCase(tail, search);
      assert lowered[0] == Lower(voices[0]);
      assert lowered[1..] == LowerAll(tail);
      KeepIgnoresVoiceCase(voices[0], search);
      var kept := Keep(voices[0], search);
      var head := if kept then [voices[0]] else [];
      assert LowerAll(head) == if kept then [lowered[0]] else [];
      assert FilterSeq(voices, search) == head + FilterSeq(tail, search);
      assert FilterSeq(lowered, search) == LowerAll(head) + FilterSeq(LowerAll(tail), search);
      LowerAllConcat(head, FilterSeq(tail, search));
    }
  }
}
