/**
 * A JavaScript `Record<string, number>` seen as its own properties in insertion
 * order. An object cannot hold one key twice, and `Put` never creates a second
 * entry for a key. A list that does repeat a key is not an object: `Get` reads
 * its first entry while `Total` would count both, so the functions below agree
 * with JavaScript only on lists with distinct keys (`DistinctKeys`).
 * Reading a missing key gives `undefined`, modelled as `None`.
 */
module Records {
  import opened Wrappers

  datatype Entry = Entry(key: string, value: real)

  type Record = seq<Entry>

  /** `r[k]`: the value of the first entry named `k`, or `None` (`undefined`). */
  function Get(r: Record, k: string): Option<real>
  {
    if |r| == 0 then None
    else if r[0].key == k then Some(r[0].value)
    else Get(r[1..], k)
  }

  /** A read is defined exactly when some entry is named `k`, and it then gives that entry's value. */
  lemma {:induction false} GetFound(r: Record, k: string)
    ensures Get(r, k).Some? <==> exists i :: 0 <= i < |r| && r[i].key == k
    ensures Get(r, k).Some? ==> exists i :: 0 <= i < |r| && r[i] == Entry(k, Get(r, k).value)
  {
    if |r| > 0 && r[0].key != k {
      GetFound(r[1..], k);
      if Get(r, k).Some? {
        var i :| 0 <= i < |r[1..]| && r[1..][i] == Entry(k, Get(r, k).value);
        assert r[i + 1] == Entry(k, Get(r, k).value);
      }
      if exists i :: 0 <= i < |r| && r[i].key == k {
        var i :| 0 <= i < |r| && r[i].key == k;
        assert r[1..][i - 1].key == k;
      }
    }
  }

  /** `r[k] = v` on an object: an existing property keeps its place, a new one goes last. */
  function Put(r: Record, k: string, v: real): (r': Record)
    ensures Get(r', k) == Some(v)
    ensures forall k' :: k' != k ==> Get(r', k') == Get(r, k')
  {
    if |r| == 0 then [Entry(k, v)]
    else if r[0].key == k then [Entry(k, v)] + r[1..]
    else [r[0]] + Put(r[1..], k, v)
  }

  /** Every key of `Put(r, k, v)` is `k` or a key of `r`. */
  lemma {:induction false} PutKeys(r: Record, k: string, v: real)
    ensures forall i :: 0 <= i < |Put(r, k, v)| ==>
      Put(r, k, v)[i].key == k || exists j :: 0 <= j < |r| && r[j].key == Put(r, k, v)[i].key
  {
    if |r| > 0 && r[0].key != k {
      PutKeys(r[1..], k, v);
      forall i | 0 <= i < |Put(r, k, v)|
        ensures Put(r, k, v)[i].key == k || exists j :: 0 <= j < |r| && r[j].key == Put(r, k, v)[i].key
      {
        if i == 0 {
          assert r[0].key == Put(r, k, v)[i].key;
        } else {
          assert Put(r, k, v)[i] == Put(r[1..], k, v)[i - 1];
          if Put(r, k, v)[i].key != k {
            var j :| 0 <= j < |r[1..]| && r[1..][j].key == Put(r[1..], k, v)[i - 1].key;
            assert r[j + 1].key == Put(r, k, v)[i].key;
          }
        }
      }
    }
  }

  /** `r[k] = v` keeps an object an object: it never adds a second entry for a key. */
  lemma {:induction false} PutDistinct(r: Record, k: string, v: real)
    requires DistinctKeys(r)
    ensures DistinctKeys(Put(r, k, v))
  {
    if |r| > 0 && r[0].key != k {
      assert DistinctKeys(r[1..]);
      PutDistinct(r[1..], k, v);
      PutKeys(r[1..], k, v);
      var p := Put(r, k, v);
      forall i, j | 0 <= i < j < |p|
        ensures p[i].key != p[j].key
      {
        assert p[j] == Put(r[1..], k, v)[j - 1];
        if i == 0 && p[j].key != k {
          var m :| 0 <= m < |r[1..]| && r[1..][m].key == p[j].key;
          assert r[m + 1].key == p[j].key;
        }
        if i > 0 {
          assert p[i] == Put(r[1..], k, v)[i - 1];
        }
      }
    }
  }

  /** `Object.values(r).reduce((a, b) => a + b, 0)`. */
  function Total(r: Record): real
  {
    if |r| == 0 then 0.0 else r[0].value + Total(r[1..])
  }

  /** `ks.reduce((sum, k) => sum + r[k], 0)`: NaN (`None`) as soon as one key is missing. */
  function SumAt(r: Record, ks: seq<string>): Option<real>
  {
    if |ks| == 0 then Some(0.0)
    else
      var head := Get(r, ks[0]);
      var rest := SumAt(r, ks[1..]);
      if head.None? || rest.None? then None else Some(head.value + rest.value)
  }

  /** The sum is undefined (NaN) exactly when one of the keys is missing. */
  lemma {:induction false} SumAtMissing(r: Record, ks: seq<string>)
    ensures SumAt(r, ks).None? <==> exists i :: 0 <= i < |ks| && Get(r, ks[i]).None?
  {
    if |ks| > 0 {
      SumAtMissing(r, ks[1..]);
      if SumAt(r, ks[1..]).None? {
        var i :| 0 <= i < |ks[1..]| && Get(r, ks[1..][i]).None?;
        assert Get(r, ks[i + 1]).None?;
      }
      if exists i :: 0 <= i < |ks| && Get(r, ks[i]).None? {
        var i :| 0 <= i < |ks| && Get(r, ks[i]).None?;
        if i > 0 {
          assert Get(r, ks[1..][i - 1]).None?;
        }
      }
    }
  }

  /** The lists that are JavaScript objects: no key appears twice. */
  ghost predicate DistinctKeys(r: Record)
  {
    forall i, j :: 0 <= i < j < |r| ==> r[i].key != r[j].key
  }

  ghost predicate NonNegative(r: Record)
  {
    forall i :: 0 <= i < |r| ==> r[i].value >= 0.0
  }

  ghost predicate Distinct(ks: seq<string>)
  {
    forall i, j :: 0 <= i < j < |ks| ==> ks[i] != ks[j]
  }

  /** The object without the entry `Get` reads for `k` (used only in proofs). */
  function RemoveFirst(r: Record, k: string): Record
  {
    if |r| == 0 then []
    else if r[0].key == k then r[1..]
    else [r[0]] + RemoveFirst(r[1..], k)
  }

  lemma {:induction false} TotalSplit(r: Record, k: string)
    requires Get(r, k).Some?
    ensures Total(r) == Get(r, k).value + Total(RemoveFirst(r, k))
  {
    if r[0].key != k {
      TotalSplit(r[1..], k);
      assert [r[0]] + RemoveFirst(r[1..], k) == RemoveFirst(r, k);
      assert ([r[0]] + RemoveFirst(r[1..], k))[1..] == RemoveFirst(r[1..], k);
    }
  }

  lemma {:induction false} GetRemoveFirst(r: Record, k: string, k': string)
    requires k' != k
    ensures Get(RemoveFirst(r, k), k') == Get(r, k')
  {
    if |r| > 0 && r[0].key != k {
      GetRemoveFirst(r[1..], k, k');
      assert ([r[0]] + RemoveFirst(r[1..], k))[1..] == RemoveFirst(r[1..], k);
    }
  }

  lemma {:induction false} RemoveFirstNonNegative(r: Record, k: string)
    requires NonNegative(r)
    ensures NonNegative(RemoveFirst(r, k))
  {
    if |r| > 0 && r[0].key != k {
      RemoveFirstNonNegative(r[1..], k);
    }
  }

  lemma {:induction false} TotalNonNegative(r: Record)
    requires NonNegative(r)
    ensures Total(r) >= 0.0
  {
    if |r| > 0 {
      TotalNonNegative(r[1..]);
    }
  }

  /** Two objects that agree on every key of `ks` give the same sum over `ks`. */
  lemma {:induction false} SumAtAgree(r: Record, r': Record, ks: seq<string>)
    requires forall i :: 0 <= i < |ks| ==> Get(r, ks[i]) == Get(r', ks[i])
    ensures SumAt(r, ks) == SumAt(r', ks)
  {
    if |ks| > 0 {
      forall i | 0 <= i < |ks[1..]|
        ensures Get(r, ks[1..][i]) == Get(r', ks[1..][i])
      {
        assert ks[1..][i] == ks[i + 1];
      }
      SumAtAgree(r, r', ks[1..]);
      assert Get(r, ks[0]) == Get(r', ks[0]);
    }
  }

  /**
   * Summing distinct keys of an object with non-negative values never exceeds
   * the sum of all its values.
   */
  lemma {:induction false} SumAtBounded(r: Record, ks: seq<string>)
    requires NonNegative(r) && Distinct(ks)
    requires SumAt(r, ks).Some?
    ensures 0.0 <= SumAt(r, ks).value <= Total(r)
    decreases |ks|
  {
    if |ks| == 0 {
      TotalNonNegative(r);
    } else {
      var k := ks[0];
      var r' := RemoveFirst(r, k);
      var head := Get(r, k);
      assert head.Some?;
      GetFound(r, k);
      var i :| 0 <= i < |r| && r[i] == Entry(k, head.value);
      assert head.value >= 0.0;
      TotalSplit(r, k);
      RemoveFirstNonNegative(r, k);
      forall j | 0 <= j < |ks[1..]|
        ensures Get(r, ks[1..][j]) == Get(r', ks[1..][j])
      {
        assert ks[1..][j] == ks[j + 1] != k;
        GetRemoveFirst(r, k, ks[1..][j]);
      }
      SumAtAgree(r, r', ks[1..]);
      SumAtBounded(r', ks[1..]);
    }
  }
}
