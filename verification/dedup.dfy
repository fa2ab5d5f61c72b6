/**
 * Keeping the best of several scraped entries that share a key: the rule the
 * participation step applies to duplicate (team, event) pairs, written once
 * for any key. An entry replaces the one kept so far only when its score is
 * strictly higher, so the kept entry has the highest score and, among those,
 * is the first one seen.
 */
module Duplicates {
  import opened Wrappers

  /** A scraped entry: its key, what is kept for it, and the score compared. */
  datatype Entry<K, V> = Entry(key: K, item: V, score: int)

  /** One pass of the loop body: keep `e` if its key is new or its score strictly higher. */
  function Step<K(==), V>(m: map<K, Entry<K, V>>, e: Entry<K, V>): map<K, Entry<K, V>> {
    if e.key !in m || e.score > m[e.key].score then m[e.key := e] else m
  }

  /** The map the loop has built after the entries `s`, in order. */
  function Dedup<K(==), V>(s: seq<Entry<K, V>>): map<K, Entry<K, V>>
    decreases |s|
  {
    if s == [] then map[] else Step(Dedup(s[..|s| - 1]), s[|s| - 1])
  }

  /**
   * Index `i` holds the entry kept for key `k`: it has key `k`, no entry with
   * key `k` scores higher, and every earlier entry with key `k` scores lower.
   */
  ghost predicate IsChoice<K, V>(s: seq<Entry<K, V>>, k: K, i: int) {
    && 0 <= i < |s|
    && s[i].key == k
    && (forall j :: 0 <= j < |s| && s[j].key == k ==> s[j].score <= s[i].score)
    && (forall j :: 0 <= j < i && s[j].key == k ==> s[j].score < s[i].score)
  }

  /** Some entry of `s` has key `k`. */
  ghost predicate Mentions<K, V>(s: seq<Entry<K, V>>, k: K) {
    exists i :: 0 <= i < |s| && s[i].key == k
  }

  /** The map has an entry exactly for each key that occurs in `s`. */
  lemma {:induction false} DedupKeys<K, V>(s: seq<Entry<K, V>>, k: K)
    ensures k in Dedup(s) <==> Mentions(s, k)
    decreases |s|
  {
    if s != [] {
      var n := |s| - 1;
      var s' := s[..n];
      DedupKeys(s', k);
      if Mentions(s', k) {
        var i :| 0 <= i < |s'| && s'[i].key == k;
        assert s[i].key == k;
      }
      if Mentions(s, k) && s[n].key != k {
        var i :| 0 <= i < |s| && s[i].key == k;
        assert i < n && s'[i].key == k;
      }
    }
  }

  /** A choice survives an appended entry that has another key or does not score higher. */
  lemma ChoiceKept<K, V>(s: seq<Entry<K, V>>, c: Entry<K, V>, k: K, i: int)
    requires IsChoice(s, k, i)
    requires c.key != k || c.score <= s[i].score
    ensures IsChoice(s + [c], k, i)
  {
    var t := s + [c];
    forall j | 0 <= j < |t| && t[j].key == k
      ensures t[j].score <= t[i].score
    {
      if j < |s| {
        assert t[j] == s[j];
      }
    }
  }

  /** An appended entry that beats every earlier entry with its key is the new choice. */
  lemma ChoiceReplaced<K, V>(s: seq<Entry<K, V>>, c: Entry<K, V>)
    requires forall j :: 0 <= j < |s| && s[j].key == c.key ==> s[j].score < c.score
    ensures IsChoice(s + [c], c.key, |s|)
  {
    var t := s + [c];
    forall j | 0 <= j < |t| && t[j].key == c.key
      ensures t[j].score <= t[|s|].score
    {
      if j < |s| {
        assert t[j] == s[j];
      }
    }
  }

  /** The entry kept for key `k` is the first of the highest-scoring entries with that key. */
  lemma {:induction false} DedupChoice<K, V>(s: seq<Entry<K, V>>, k: K)
    requires k in Dedup(s)
    ensures exists i :: IsChoice(s, k, i) && Dedup(s)[k] == s[i]
    decreases |s|
  {
    var n := |s| - 1;
    var s', c := s[..n], s[n];
    assert s == s' + [c];
    var m := Dedup(s');
    assert Dedup(s) == Step(m, c);
    if k in m {
      DedupChoice(s', k);
      var i :| IsChoice(s', k, i) && m[k] == s'[i];
      if k == c.key && c.score > m[k].score {
        ChoiceReplaced(s', c);
        assert Dedup(s)[k] == s[n];
      } else {
        ChoiceKept(s', c, k, i);
        assert Dedup(s)[k] == s[i];
      }
    } else {
      DedupKeys(s', k);
      assert k == c.key;
      ChoiceReplaced(s', c);
      assert Dedup(s)[k] == s[n];
    }
  }

  /** One more entry is one more pass of the loop body. */
  lemma DedupSnoc<K, V>(s: seq<Entry<K, V>>, e: Entry<K, V>)
    ensures Dedup(s + [e]) == Step(Dedup(s), e)
  {
    assert (s + [e])[..|s|] == s;
  }

  /** Consequently no entry of `s` beats the one kept for its key. */
  lemma DedupKeepsMax<K, V>(s: seq<Entry<K, V>>, j: int)
    requires 0 <= j < |s|
    ensures s[j].key in Dedup(s)
    ensures Dedup(s)[s[j].key].key == s[j].key
    ensures s[j].score <= Dedup(s)[s[j].key].score
  {
    DedupKeys(s, s[j].key);
    DedupChoice(s, s[j].key);
    var i :| IsChoice(s, s[j].key, i) && Dedup(s)[s[j].key] == s[i];
  }

  // ---------------------------------------------------------------- the score map of the placeholder backfill

  /**
   * As written in the backfill: a dict comprehension over the scraped teams,
   * so a later entry with the same key overwrites an earlier one.
   */
  function LastScores<K(==)>(s: seq<(K, int)>): map<K, int>
    decreases |s|
  {
    if s == [] then map[] else LastScores(s[..|s| - 1])[s[|s| - 1].0 := s[|s| - 1].1]
  }

  /** The score the participation step would keep for each key: the highest one. */
  function BestScores<K(==)>(s: seq<(K, int)>): (r: map<K, int>)
  {
    var d := Dedup(Entries(s));
    map k | k in d :: d[k].score
  }

  function Entries<K>(s: seq<(K, int)>): (r: seq<Entry<K, ()>>)
    ensures |r| == |s|
    ensures forall i :: 0 <= i < |s| ==> r[i] == Entry(s[i].0, (), s[i].1)
  {
    seq(|s|, i requires 0 <= i < |s| => Entry(s[i].0, (), s[i].1))
  }

  /** The last-wins map keeps, for each key, the score of the last entry with it. */
  lemma {:induction false} LastScoresLast<K>(s: seq<(K, int)>, i: int)
    requires 0 <= i < |s|
    requires forall j :: i < j < |s| ==> s[j].0 != s[i].0
    ensures s[i].0 in LastScores(s) && LastScores(s)[s[i].0] == s[i].1
    decreases |s|
  {
    var n := |s| - 1;
    if i < n {
      var s' := s[..n];
      assert s'[i] == s[i];
      LastScoresLast(s', i);
    }
  }

  /**
   * The last-wins map has exactly the keys of `s`, and each maps to the score
   * of an entry with that key that no later entry shares.
   */
  lemma {:induction false} LastScoresFrom<K>(s: seq<(K, int)>, k: K)
    ensures k in LastScores(s) <==> exists i :: 0 <= i < |s| && s[i].0 == k
    ensures k in LastScores(s) ==>
      exists i :: 0 <= i < |s| && s[i].0 == k && s[i].1 == LastScores(s)[k]
                  && forall j :: i < j < |s| ==> s[j].0 != k
    decreases |s|
  {
    if s != [] {
      var n := |s| - 1;
      var s' := s[..n];
      LastScoresFrom(s', k);
      if s[n].0 == k {
        assert s[n].0 == k && s[n].1 == LastScores(s)[k];
      } else if k in LastScores(s') {
        var i :| 0 <= i < |s'| && s'[i].0 == k && s'[i].1 == LastScores(s')[k]
                 && forall j :: i < j < |s'| ==> s'[j].0 != k;
        assert s[i] == s'[i];
      } else {
        forall i | 0 <= i < |s|
          ensures s[i].0 != k
        {
          if i < n {
            assert s[i] == s'[i];
          }
        }
      }
    }
  }

  /** The best-score map has every key of `s`, each with the highest score given for it. */
  lemma BestScoresMax<K>(s: seq<(K, int)>, j: int)
    requires 0 <= j < |s|
    ensures s[j].0 in BestScores(s)
    ensures s[j].1 <= BestScores(s)[s[j].0]
    ensures exists i :: 0 <= i < |s| && s[i].0 == s[j].0 && s[i].1 == BestScores(s)[s[j].0]
  {
    var es := Entries(s);
    DedupKeepsMax(es, j);
    DedupChoice(es, s[j].0);
    var i :| IsChoice(es, s[j].0, i) && Dedup(es)[s[j].0] == es[i];
    assert s[i].0 == s[j].0 && s[i].1 == BestScores(s)[s[j].0];
  }

  /** Team "Team A" (a guest, so no team id) scraped twice, scored 70 and then 50. */
  function TeamScrapedTwice(): seq<((Option<nat>, string), int)> {
    [((None, "Team A"), 70), ((None, "Team A"), 50)]
  }

  /**
   * The backfill and the participation step disagree on a team scraped twice
   * with different scores: the last-wins map gives 50 where the participation
   * step keeps 70.
   */
  lemma LastScoresDisagree()
    ensures LastScores(TeamScrapedTwice())[(None, "Team A")] == 50
    ensures BestScores(TeamScrapedTwice())[(None, "Team A")] == 70
  {
    var s := TeamScrapedTwice();
    LastScoresLast(s, 1);
    BestScoresMax(s, 0);
    BestScoresMax(s, 1);
  }
}
