/**
 * Choosing among the candidates of a parallel request (llm/router.py): the two-stage vote and the
 * plain confidence choice. `strip` stands for Python's `str.strip`; any function will do.
 */
module LlmVoting {
  import opened Basics

  datatype Candidate = Candidate(modelId: string, text: string, confidence: real)

  function KeyOf(cands: seq<Candidate>, strip: string -> string, i: nat): string
    requires i < |cands|
  {
    strip(cands[i].text)
  }

  /** The positions among the first n candidates whose stripped text is `key`, ascending. */
  function Voters(cands: seq<Candidate>, strip: string -> string, key: string, n: nat): seq<nat>
    requires n <= |cands|
  {
    if n == 0 then []
    else Voters(cands, strip, key, n - 1) + (if KeyOf(cands, strip, n - 1) == key then [n - 1] else [])
  }

  /** How many candidates say what candidate i says. */
  function Votes(cands: seq<Candidate>, strip: string -> string, i: nat): nat
    requires i < |cands|
  {
    |Voters(cands, strip, KeyOf(cands, strip, i), |cands|)|
  }

  /** The order the vote is meant to maximise: first votes, then confidence. */
  predicate Beats(cands: seq<Candidate>, strip: string -> string, i: nat, j: nat) {
    i < |cands| && j < |cands| &&
    (Votes(cands, strip, i) > Votes(cands, strip, j) ||
     (Votes(cands, strip, i) == Votes(cands, strip, j) && cands[i].confidence > cands[j].confidence))
  }

  /** The first occurrence of one text precedes the first occurrence of the other. */
  predicate SaidBefore(cands: seq<Candidate>, strip: string -> string, key: string, other: string) {
    var first, second := Voters(cands, strip, key, |cands|), Voters(cands, strip, other, |cands|);
    first != [] && second != [] && first[0] < second[0]
  }

  /** What `_run_confidence` promises: the first of the most confident candidates. */
  ghost predicate ConfidenceWinner(cands: seq<Candidate>, c: nat) {
    && c < |cands|
    && (forall i: nat :: i < |cands| ==> cands[i].confidence <= cands[c].confidence)
    && (forall i: nat :: i < c ==> cands[i].confidence < cands[c].confidence)
  }

  /**
   * What the vote amounts to: one lexicographic choice. Nobody beats the winner in (votes, confidence);
   * among equals with another text, the winner's text was said first; among equals with the same text,
   * the winner came first.
   */
  ghost predicate VoteWinner(cands: seq<Candidate>, strip: string -> string, w: nat) {
    && w < |cands|
    && (forall i: nat :: i < |cands| ==> !Beats(cands, strip, i, w))
    && (forall i: nat :: i < |cands| && KeyOf(cands, strip, i) != KeyOf(cands, strip, w) && !Beats(cands, strip, w, i)
          ==> SaidBefore(cands, strip, KeyOf(cands, strip, w), KeyOf(cands, strip, i)))
    && (forall i: nat :: i < w && KeyOf(cands, strip, i) == KeyOf(cands, strip, w) ==> Beats(cands, strip, w, i))
  }

  /** `max(..., key=confidence)`: the place of the first element with the highest confidence. */
  method FirstMostConfident(cands: seq<Candidate>, group: seq<nat>) returns (place: nat)
    requires group != [] && forall a :: 0 <= a < |group| ==> group[a] < |cands|
    ensures place < |group|
    ensures forall a :: 0 <= a < |group| ==> cands[group[a]].confidence <= cands[group[place]].confidence
    ensures forall a :: 0 <= a < place ==> cands[group[a]].confidence < cands[group[place]].confidence
  {
    place := 0;
    var a := 1;
    while a < |group|
      invariant place < a <= |group|
      invariant forall b :: 0 <= b < a ==> cands[group[b]].confidence <= cands[group[place]].confidence
      invariant forall b :: 0 <= b < place ==> cands[group[b]].confidence < cands[group[place]].confidence
    {
      if cands[group[a]].confidence > cands[group[place]].confidence {
        place := a;
      }
      a := a + 1;
    }
  }

  /** `_run_confidence`: None stands for the error raised when no attempt succeeded. */
  method RunConfidence(cands: seq<Candidate>) returns (best: Option<nat>)
    ensures best == None <==> cands == []
    ensures best.Some? ==> ConfidenceWinner(cands, best.value)
  {
    if cands == [] {
      return None;
    }
    var everyone: seq<nat> := seq(|cands|, i requires 0 <= i < |cands| => i);
    var place := FirstMostConfident(cands, everyone);
    forall i: nat | i < |cands|
      ensures cands[i].confidence <= cands[place].confidence
      ensures i < place ==> cands[i].confidence < cands[place].confidence
    {
      assert everyone[i] == i && everyone[place] == place;
    }
    best := Some(place);
  }

  /** The tally and the groups after the first n candidates. */
  ghost predicate Tallied(cands: seq<Candidate>, strip: string -> string, n: nat,
                          tally: map<string, nat>, byKey: map<string, seq<nat>>)
    requires n <= |cands|
  {
    && tally.Keys == byKey.Keys
    && (forall k :: k in byKey ==> byKey[k] == Voters(cands, strip, k, n) != [] && tally[k] == |byKey[k]|)
    && (forall k :: k !in byKey ==> Voters(cands, strip, k, n) == [])
  }

  ghost predicate AscendingMatches(cands: seq<Candidate>, strip: string -> string, key: string, n: nat, vs: seq<nat>)
    requires n <= |cands|
  {
    && (forall a :: 0 <= a < |vs| ==> vs[a] < n && KeyOf(cands, strip, vs[a]) == key)
    && (forall a, b :: 0 <= a < b < |vs| ==> vs[a] < vs[b])
  }

  lemma {:induction false} VotersAreMatches(cands: seq<Candidate>, strip: string -> string, key: string, n: nat)
    requires n <= |cands|
    ensures AscendingMatches(cands, strip, key, n, Voters(cands, strip, key, n))
  {
    if n > 0 { VotersAreMatches(cands, strip, key, n - 1); }
  }

  lemma {:induction false} MatchesAreVoters(cands: seq<Candidate>, strip: string -> string, i: nat, n: nat)
    requires i < n <= |cands|
    ensures i in Voters(cands, strip, KeyOf(cands, strip, i), n)
  {
    if i < n - 1 { MatchesAreVoters(cands, strip, i, n - 1); }
  }

  function Tally(tally: map<string, nat>, key: string): map<string, nat> {
    tally[key := (if key in tally then tally[key] else 0) + 1]
  }

  function Grouped(byKey: map<string, seq<nat>>, key: string, i: nat): map<string, seq<nat>> {
    byKey[key := (if key in byKey then byKey[key] else []) + [i]]
  }

  lemma TallyStep(cands: seq<Candidate>, strip: string -> string, n: nat,
                  tally: map<string, nat>, byKey: map<string, seq<nat>>)
    requires n < |cands| && Tallied(cands, strip, n, tally, byKey)
    ensures var key := KeyOf(cands, strip, n);
            Tallied(cands, strip, n + 1, Tally(tally, key), Grouped(byKey, key, n))
  {
    var key := KeyOf(cands, strip, n);
    forall k: string
      ensures Voters(cands, strip, k, n + 1) == Voters(cands, strip, k, n) + (if k == key then [n] else [])
    {
    }
  }

  /** The tally and the groups of `_run_parallel_vote`, and the texts in the order they were first said. */
  method Collect(cands: seq<Candidate>, strip: string -> string)
    returns (keys: seq<string>, tally: map<string, nat>, byKey: map<string, seq<nat>>)
    ensures Tallied(cands, strip, |cands|, tally, byKey)
    ensures forall k :: k in keys <==> k in byKey
    ensures forall a, b :: 0 <= a < b < |keys| ==> SaidBefore(cands, strip, keys[a], keys[b])
  {
    hide Tallied, Tally, Grouped, Voters, KeyedBy, SaidBefore;
    keys, tally, byKey := [], map[], map[];
    ghost var firsts: seq<nat> := [];
    NothingTallied(cands, strip);
    var i := 0;
    while i < |cands|
      invariant i <= |cands| && Tallied(cands, strip, i, tally, byKey)
      invariant KeyedBy(keys, byKey, firsts, i)
    {
      var key := strip(cands[i].text);
      TallyStep(cands, strip, i, tally, byKey);
      KeyedStep(keys, byKey, firsts, i, key);
      tally := Tally(tally, key);
      if key !in byKey {
        keys := keys + [key];
        firsts := firsts + [i];
      }
      byKey := Grouped(byKey, key, i);
      i := i + 1;
    }
    KeyedMeansOrdered(cands, strip, keys, tally, byKey, firsts);
  }

  lemma NothingTallied(cands: seq<Candidate>, strip: string -> string)
    ensures Tallied(cands, strip, 0, map[], map[]) && KeyedBy([], map[], [], 0)
  {
  }

  lemma KeyedMeansOrdered(cands: seq<Candidate>, strip: string -> string, keys: seq<string>,
                          tally: map<string, nat>, byKey: map<string, seq<nat>>, firsts: seq<nat>)
    requires Tallied(cands, strip, |cands|, tally, byKey) && KeyedBy(keys, byKey, firsts, |cands|)
    ensures forall k :: k in keys <==> k in byKey
    ensures forall a, b :: 0 <= a < b < |keys| ==> SaidBefore(cands, strip, keys[a], keys[b])
  {
    hide Voters;
  }

  /** The texts in the order of their first occurrences, which all lie before n. */
  ghost predicate KeyedBy(keys: seq<string>, byKey: map<string, seq<nat>>, firsts: seq<nat>, n: nat) {
    && |keys| == |firsts|
    && (forall k :: k in byKey <==> k in keys)
    && (forall a :: 0 <= a < |keys| ==> keys[a] in byKey && byKey[keys[a]] != [] && byKey[keys[a]][0] == firsts[a] < n)
    && (forall a, b :: 0 <= a < b < |firsts| ==> firsts[a] < firsts[b])
  }

  lemma KeyedStep(keys: seq<string>, byKey: map<string, seq<nat>>, firsts: seq<nat>, n: nat, key: string)
    requires KeyedBy(keys, byKey, firsts, n)
    ensures if key in byKey then KeyedBy(keys, Grouped(byKey, key, n), firsts, n + 1)
            else KeyedBy(keys + [key], Grouped(byKey, key, n), firsts + [n], n + 1)
  {
    var next, order := Grouped(byKey, key, n), if key in byKey then keys else keys + [key];
    forall a | 0 <= a < |keys|
      ensures keys[a] in next && next[keys[a]] != [] && next[keys[a]][0] == firsts[a]
    {
      assert keys[a] in byKey;
    }
    forall k
      ensures k in next <==> k in order
    {
    }
  }

  /** The most confident candidate of a text, the first of them if there are several. */
  ghost predicate IsTop(cands: seq<Candidate>, strip: string -> string, key: string, top: nat) {
    && top < |cands| && KeyOf(cands, strip, top) == key
    && (forall i: nat :: i < |cands| && KeyOf(cands, strip, i) == key ==> cands[i].confidence <= cands[top].confidence)
    && (forall i: nat :: i < top && KeyOf(cands, strip, i) == key ==> cands[i].confidence < cands[top].confidence)
  }

  /** The best of a group, in any of the ways the code asks for it. */
  method TopOfGroup(cands: seq<Candidate>, strip: string -> string, ghost key: string, group: seq<nat>)
    returns (top: nat)
    requires group == Voters(cands, strip, key, |cands|) != []
    ensures IsTop(cands, strip, key, top)
  {
    VotersAreMatches(cands, strip, key, |cands|);
    var place := FirstMostConfident(cands, group);
    top := group[place];
    forall i: nat | i < |cands| && KeyOf(cands, strip, i) == key
      ensures cands[i].confidence <= cands[top].confidence
      ensures i < top ==> cands[i].confidence < cands[top].confidence
    {
      MatchesAreVoters(cands, strip, i, |cands|);
      var a :| 0 <= a < |group| && group[a] == i;
    }
  }

  /** `max(tally.items(), key=(votes, best confidence))`: the place of the first maximal group. */
  method BestGroup(cands: seq<Candidate>, strip: string -> string, keys: seq<string>,
                   tally: map<string, nat>, tops: seq<nat>)
    returns (w: nat)
    requires |keys| == |tops| > 0
    requires forall b :: 0 <= b < |tops| ==> tops[b] < |cands| && KeyOf(cands, strip, tops[b]) == keys[b]
    requires forall b :: 0 <= b < |keys| ==>
               keys[b] in tally && tally[keys[b]] == |Voters(cands, strip, keys[b], |cands|)|
    ensures w < |tops|
    ensures forall b :: 0 <= b < |tops| ==> !Beats(cands, strip, tops[b], tops[w])
    ensures forall b :: 0 <= b < w ==> Beats(cands, strip, tops[w], tops[b])
  {
    hide Voters;
    w := 0;
    var a := 1;
    while a < |keys|
      invariant 1 <= a <= |keys| && w < a
      invariant forall b :: 0 <= b < a ==> !Beats(cands, strip, tops[b], tops[w])
      invariant forall b :: 0 <= b < w ==> Beats(cands, strip, tops[w], tops[b])
    {
      if tally[keys[a]] > tally[keys[w]] ||
         (tally[keys[a]] == tally[keys[w]] && cands[tops[a]].confidence > cands[tops[w]].confidence) {
        w := a;
      }
      a := a + 1;
    }
  }

  /** `_run_parallel_vote`: None stands for the error raised when no attempt succeeded. */
  method RunParallelVote(cands: seq<Candidate>, strip: string -> string) returns (best: Option<nat>)
    ensures best == None <==> cands == []
    ensures best.Some? ==> VoteWinner(cands, strip, best.value)
  {
    hide VoteWinner, IsTop, Voters;
    if cands == [] {
      return None;
    }
    var keys, tally, byKey := Collect(cands, strip);
    EveryTextIsGrouped(cands, strip, tally, byKey);
    assert KeyOf(cands, strip, 0) in keys;
    var tops: seq<nat> := [];
    while |tops| < |keys|
      invariant |tops| <= |keys|
      invariant forall b :: 0 <= b < |tops| ==> tops[b] < |cands| && KeyOf(cands, strip, tops[b]) == keys[b]
      invariant forall b :: 0 <= b < |tops| ==> IsTop(cands, strip, keys[b], tops[b])
      decreases |keys| - |tops|
    {
      var key := keys[|tops|];
      assert key in byKey;
      var top := TopOfGroup(cands, strip, key, byKey[key]);
      TopIsKeyed(cands, strip, key, top);
      tops := tops + [top];
    }
    assert forall b :: 0 <= b < |keys| ==> keys[b] in byKey;
    var w := BestGroup(cands, strip, keys, tally, tops);
    TopOfTopsWins(cands, strip, keys, tops, w);
    best := Some(tops[w]);
  }

  lemma TopIsKeyed(cands: seq<Candidate>, strip: string -> string, key: string, top: nat)
    requires IsTop(cands, strip, key, top)
    ensures top < |cands| && KeyOf(cands, strip, top) == key
  {
  }

  lemma EveryTextIsGrouped(cands: seq<Candidate>, strip: string -> string,
                           tally: map<string, nat>, byKey: map<string, seq<nat>>)
    requires Tallied(cands, strip, |cands|, tally, byKey)
    ensures forall i: nat :: i < |cands| ==> KeyOf(cands, strip, i) in byKey
  {
    forall i: nat | i < |cands|
      ensures KeyOf(cands, strip, i) in byKey
    {
      MatchesAreVoters(cands, strip, i, |cands|);
    }
  }

  /** The best of the groups' best is the winner over all candidates. */
  lemma TopOfTopsWins(cands: seq<Candidate>, strip: string -> string, keys: seq<string>, tops: seq<nat>, w: nat)
    requires |keys| == |tops| && w < |tops|
    requires forall b :: 0 <= b < |keys| ==> IsTop(cands, strip, keys[b], tops[b])
    requires forall i: nat :: i < |cands| ==> KeyOf(cands, strip, i) in keys
    requires forall a, b :: 0 <= a < b < |keys| ==> SaidBefore(cands, strip, keys[a], keys[b])
    requires forall b :: 0 <= b < |keys| ==> !Beats(cands, strip, tops[b], tops[w])
    requires forall b :: 0 <= b < w ==> Beats(cands, strip, tops[w], tops[b])
    ensures VoteWinner(cands, strip, tops[w])
  {
    hide Voters;
    assert IsTop(cands, strip, keys[w], tops[w]);
    forall i: nat | i < |cands|
      ensures !Beats(cands, strip, i, tops[w])
      ensures KeyOf(cands, strip, i) != keys[w] && !Beats(cands, strip, tops[w], i) ==>
                SaidBefore(cands, strip, keys[w], KeyOf(cands, strip, i))
    {
      var b :| 0 <= b < |keys| && keys[b] == KeyOf(cands, strip, i);
      assert IsTop(cands, strip, keys[b], tops[b]);
      assert !Beats(cands, strip, tops[b], tops[w]);
      assert b < w ==> Beats(cands, strip, tops[w], tops[b]);
    }
  }

  /** When everybody says something different, the vote is the confidence choice, down to the very candidate. */
  lemma DistinctVoteIsConfidence(cands: seq<Candidate>, strip: string -> string, w: nat, c: nat)
    requires forall i: nat, j: nat :: i < j < |cands| ==> KeyOf(cands, strip, i) != KeyOf(cands, strip, j)
    requires VoteWinner(cands, strip, w) && ConfidenceWinner(cands, c)
    ensures w == c
  {
    hide Voters;
    LoneVoter(cands, strip, w, |cands|);
    LoneVoter(cands, strip, c, |cands|);
    assert !Beats(cands, strip, c, w);
  }

  lemma {:induction false} LoneVoter(cands: seq<Candidate>, strip: string -> string, i: nat, n: nat)
    requires i < |cands| && n <= |cands|
    requires forall j: nat :: j < |cands| && j != i ==> KeyOf(cands, strip, j) != KeyOf(cands, strip, i)
    ensures Voters(cands, strip, KeyOf(cands, strip, i), n) == if i < n then [i] else []
  {
    if n > 0 { LoneVoter(cands, strip, i, n - 1); }
  }
}
