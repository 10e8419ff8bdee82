/**
 * The array operations the app uses on its lists, over a key function
 * (an exercise's or a workout's `id`, a workout's lower-cased name):
 * `findIndex`/`find`, `some`, `filter`, and `splice(i, 1)`.
 */
module Sequences {
  import opened Wrappers

  /** No two elements share a key. */
  ghost predicate UniqueKeys<T>(s: seq<T>, key: T -> string)
  {
    forall i, j :: 0 <= i < j < |s| ==> key(s[i]) != key(s[j])
  }

  /** `s.some(x => key(x) === k)` */
  predicate HasKey<T>(s: seq<T>, key: T -> string, k: string)
  {
    exists i :: 0 <= i < |s| && key(s[i]) == k
  }

  /**
   * `s.findIndex(x => key(x) === k)`, with `None` for -1: the position of
   * the first element with key `k`.
   */
  function IndexOfKey<T>(s: seq<T>, key: T -> string, k: string): (r: Option<nat>)
    ensures r.Some? ==> r.value < |s| && key(s[r.value]) == k
    ensures r.Some? ==> forall j :: 0 <= j < r.value ==> key(s[j]) != k
    ensures r.None? <==> !HasKey(s, key, k)
  {
    if s == [] then None
    else if key(s[0]) == k then Some(0)
    else match IndexOfKey(s[1..], key, k)
      case None =>
        assert forall i :: 1 <= i < |s| ==> s[i] == s[1..][i - 1];
        None
      case Some(i) => Some(i + 1)
  }

  /** `s.splice(i, 1)`: the element at `i` removed, the others kept in order. */
  function RemoveAt<T>(s: seq<T>, i: nat): (r: seq<T>)
    requires i < |s|
    ensures |r| == |s| - 1
    ensures forall j :: 0 <= j < i ==> r[j] == s[j]
    ensures forall j :: i <= j < |r| ==> r[j] == s[j + 1]
  {
    s[..i] + s[i + 1..]
  }

  /** `s.filter(x => key(x) !== k)` */
  function WithoutKey<T>(s: seq<T>, key: T -> string, k: string): (r: seq<T>)
    ensures |r| <= |s|
    ensures !HasKey(r, key, k)
  {
    if s == [] then []
    else if key(s[0]) == k then WithoutKey(s[1..], key, k)
    else [s[0]] + WithoutKey(s[1..], key, k)
  }

  /** The filter keeps exactly the elements whose key is not `k`. */
  lemma {:induction false} WithoutKeyElements<T>(s: seq<T>, key: T -> string, k: string)
    ensures forall i :: 0 <= i < |WithoutKey(s, key, k)| ==>
      WithoutKey(s, key, k)[i] in s && key(WithoutKey(s, key, k)[i]) != k
    ensures forall i :: 0 <= i < |s| && key(s[i]) != k ==> s[i] in WithoutKey(s, key, k)
  {
    if s != [] {
      WithoutKeyElements(s[1..], key, k);
      var rest := WithoutKey(s[1..], key, k);
      assert forall i :: 1 <= i < |s| ==> s[i] == s[1..][i - 1];
      assert forall x :: x in s[1..] ==> x in s;
      if key(s[0]) != k {
        var r := [s[0]] + rest;
        assert forall i :: 1 <= i < |r| ==> r[i] == rest[i - 1];
      }
    }
  }

  lemma HasKeyCons<T>(s: seq<T>, key: T -> string, k: string)
    requires s != []
    ensures HasKey(s, key, k) <==> key(s[0]) == k || HasKey(s[1..], key, k)
  {
    if HasKey(s[1..], key, k) {
      var i :| 0 <= i < |s[1..]| && key(s[1..][i]) == k;
      assert key(s[i + 1]) == k;
    }
    if HasKey(s, key, k) && key(s[0]) != k {
      var i :| 0 <= i < |s| && key(s[i]) == k;
      assert key(s[1..][i - 1]) == k;
    }
  }

  lemma UniqueKeysCons<T>(s: seq<T>, key: T -> string)
    requires s != []
    ensures UniqueKeys(s, key) <==> !HasKey(s[1..], key, key(s[0])) && UniqueKeys(s[1..], key)
  {
    if UniqueKeys(s, key) {
      forall i | 0 <= i < |s[1..]| ensures key(s[1..][i]) != key(s[0]) {
        assert s[1..][i] == s[i + 1];
      }
      forall i, j | 0 <= i < j < |s[1..]| ensures key(s[1..][i]) != key(s[1..][j]) {
        assert s[1..][i] == s[i + 1] && s[1..][j] == s[j + 1];
      }
    }
    if !HasKey(s[1..], key, key(s[0])) && UniqueKeys(s[1..], key) {
      forall i, j | 0 <= i < j < |s| ensures key(s[i]) != key(s[j]) {
        if i == 0 {
          assert s[j] == s[1..][j - 1];
        } else {
          assert s[i] == s[1..][i - 1] && s[j] == s[1..][j - 1];
        }
      }
    }
  }

  /** Filtering out a key nobody has changes nothing. */
  lemma {:induction false} WithoutAbsentKey<T>(s: seq<T>, key: T -> string, k: string)
    requires !HasKey(s, key, k)
    ensures WithoutKey(s, key, k) == s
  {
    if s != [] {
      HasKeyCons(s, key, k);
      WithoutAbsentKey(s[1..], key, k);
    }
  }

  /**
   * When keys are unique, filtering out one that is present removes just
   * the element `findIndex` finds.
   */
  lemma {:induction false} WithoutUniqueKey<T>(s: seq<T>, key: T -> string, k: string)
    requires UniqueKeys(s, key)
    requires HasKey(s, key, k)
    ensures WithoutKey(s, key, k) == RemoveAt(s, IndexOfKey(s, key, k).value)
  {
    UniqueKeysCons(s, key);
    HasKeyCons(s, key, k);
    if key(s[0]) == k {
      WithoutAbsentKey(s[1..], key, k);
      assert RemoveAt(s, 0) == s[1..];
    } else {
      WithoutUniqueKey(s[1..], key, k);
      var i := IndexOfKey(s[1..], key, k).value;
      assert RemoveAt(s, i + 1) == [s[0]] + RemoveAt(s[1..], i);
    }
  }

  /** Filtering keeps keys unique. */
  lemma {:induction false} WithoutKeyKeepsUnique<T>(s: seq<T>, key: T -> string, k: string)
    requires UniqueKeys(s, key)
    ensures UniqueKeys(WithoutKey(s, key, k), key)
  {
    if s != [] {
      UniqueKeysCons(s, key);
      WithoutKeyKeepsUnique(s[1..], key, k);
      WithoutKeyElements(s[1..], key, k);
      var rest := WithoutKey(s[1..], key, k);
      if key(s[0]) != k {
        var r := [s[0]] + rest;
        assert r[1..] == rest;
        forall i | 0 <= i < |rest| ensures key(rest[i]) != key(s[0]) {
          assert rest[i] in s[1..];
        }
        UniqueKeysCons(r, key);
      }
    }
  }

  lemma HasKeyAppend<T>(s: seq<T>, x: T, key: T -> string, k: string)
    ensures HasKey(s + [x], key, k) <==> HasKey(s, key, k) || key(x) == k
  {
    if HasKey(s, key, k) {
      var i :| 0 <= i < |s| && key(s[i]) == k;
      assert (s + [x])[i] == s[i];
    }
    if HasKey(s + [x], key, k) && key(x) != k {
      var i :| 0 <= i < |s + [x]| && key((s + [x])[i]) == k;
      assert (s + [x])[i] == s[i];
    }
    assert (s + [x])[|s|] == x;
  }

  /** The element at a position is the first with its key, when keys are unique. */
  lemma IndexOfUniqueKey<T>(s: seq<T>, key: T -> string, i: nat)
    requires UniqueKeys(s, key) && i < |s|
    ensures IndexOfKey(s, key, key(s[i])) == Some(i)
  {
  }

  /** Appending an element with a fresh key keeps keys unique. */
  lemma AppendKeepsUnique<T>(s: seq<T>, x: T, key: T -> string)
    requires UniqueKeys(s, key) && !HasKey(s, key, key(x))
    ensures UniqueKeys(s + [x], key)
  {
    forall i, j | 0 <= i < j < |s + [x]| ensures key((s + [x])[i]) != key((s + [x])[j]) {
      assert (s + [x])[i] == s[i];
      if j < |s| { assert (s + [x])[j] == s[j]; }
    }
  }

  /** Prepending an element with a fresh key keeps keys unique. */
  lemma PrependKeepsUnique<T>(x: T, s: seq<T>, key: T -> string)
    requires UniqueKeys(s, key) && !HasKey(s, key, key(x))
    ensures UniqueKeys([x] + s, key)
  {
    assert ([x] + s)[1..] == s;
    UniqueKeysCons([x] + s, key);
  }

  /** Removing one element keeps keys unique, and when they were unique its key is gone. */
  lemma RemoveAtUnique<T>(s: seq<T>, i: nat, key: T -> string)
    requires UniqueKeys(s, key) && i < |s|
    ensures UniqueKeys(RemoveAt(s, i), key)
    ensures !HasKey(RemoveAt(s, i), key, key(s[i]))
    ensures forall k :: k != key(s[i]) ==> (HasKey(RemoveAt(s, i), key, k) <==> HasKey(s, key, k))
  {
    var r := RemoveAt(s, i);
    forall k | k != key(s[i]) ensures HasKey(r, key, k) <==> HasKey(s, key, k) {
      if HasKey(s, key, k) {
        var j :| 0 <= j < |s| && key(s[j]) == k;
        if j < i { assert key(r[j]) == k; } else { assert key(r[j - 1]) == k; }
      }
    }
  }

  /** Filtering out `k` keeps exactly the other keys that were present. */
  lemma WithoutKeyHasKey<T>(s: seq<T>, key: T -> string, k: string, k2: string)
    ensures HasKey(WithoutKey(s, key, k), key, k2) <==> k2 != k && HasKey(s, key, k2)
  {
    var r := WithoutKey(s, key, k);
    WithoutKeyElements(s, key, k);
    if HasKey(r, key, k2) {
      var i :| 0 <= i < |r| && key(r[i]) == k2;
      assert r[i] in s;
      var j :| 0 <= j < |s| && s[j] == r[i];
      assert key(s[j]) == k2;
    }
    if k2 != k && HasKey(s, key, k2) {
      var j :| 0 <= j < |s| && key(s[j]) == k2;
      assert s[j] in r;
      var i :| 0 <= i < |r| && r[i] == s[j];
      assert key(r[i]) == k2;
    }
  }

  /** Elementwise equal keys: uniqueness carries over. */
  lemma SameKeysKeepUnique<T>(s: seq<T>, t: seq<T>, key: T -> string)
    requires |s| == |t| && forall i :: 0 <= i < |s| ==> key(s[i]) == key(t[i])
    requires UniqueKeys(s, key)
    ensures UniqueKeys(t, key)
  {
  }
}
