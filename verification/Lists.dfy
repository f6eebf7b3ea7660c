/** What the models say of lists in general. */
module Lists {
  import opened Wrappers

  /** No element stands at two places. */
  ghost predicate Distinct<T>(s: seq<T>) {
    forall i, j :: 0 <= i < j < |s| ==> s[i] != s[j]
  }

  function FlatMap<A, B>(s: seq<A>, f: A -> seq<B>): seq<B> {
    if s == [] then [] else FlatMap(s[..|s| - 1], f) + f(s[|s| - 1])
  }

  lemma FlatMapOneMore<A, B>(s: seq<A>, x: A, f: A -> seq<B>)
    ensures FlatMap(s + [x], f) == FlatMap(s, f) + f(x)
  {
    assert (s + [x])[..|s + [x]| - 1] == s;
  }

  lemma {:induction false} FlatMapOfConcat<A, B>(a: seq<A>, b: seq<A>, f: A -> seq<B>)
    ensures FlatMap(a + b, f) == FlatMap(a, f) + FlatMap(b, f)
  {
    if b == [] {
      assert a + b == a;
    } else {
      var before, last := b[..|b| - 1], b[|b| - 1];
      FlatMapOfConcat(a, before, f);
      FlatMapOneMore(a + before, last, f);
      FlatMapOneMore(before, last, f);
      assert b == before + [last] && a + b == (a + before) + [last];
    }
  }

  lemma Associative<T>(a: seq<T>, b: seq<T>, c: seq<T>)
    ensures a + (b + c) == (a + b) + c
  {
  }

  // ---------- keys ----------

  /** The keys of the items that have one, in order. */
  function KeysOf<A>(items: seq<A>, key: A -> Option<string>): seq<string> {
    if items == [] then [] else
      var k := key(items[|items| - 1]);
      KeysOf(items[..|items| - 1], key) + if k.Some? then [k.value] else []
  }

  ghost predicate HasKey<A>(items: seq<A>, key: A -> Option<string>, k: string) {
    exists i :: 0 <= i < |items| && key(items[i]) == Some(k)
  }

  /** Two items have the same key. */
  ghost predicate Twice<A>(items: seq<A>, key: A -> Option<string>) {
    exists i, j :: 0 <= i < j < |items| && key(items[i]).Some? && key(items[i]) == key(items[j])
  }

  lemma HasKeyOneMore<A>(items: seq<A>, x: A, key: A -> Option<string>, k: string)
    ensures HasKey(items + [x], key, k) <==> HasKey(items, key, k) || key(x) == Some(k)
  {
    var all := items + [x];
    if HasKey(items, key, k) {
      var i :| 0 <= i < |items| && key(items[i]) == Some(k);
      assert key(all[i]) == Some(k);
    }
    if key(x) == Some(k) { assert key(all[|items|]) == Some(k); }
  }

  lemma {:induction false} KeysHold<A>(items: seq<A>, key: A -> Option<string>, k: string)
    ensures k in KeysOf(items, key) <==> HasKey(items, key, k)
  {
    if items != [] {
      var before, x := items[..|items| - 1], items[|items| - 1];
      assert items == before + [x];
      KeysHold(before, key, k);
      HasKeyOneMore(before, x, key, k);
    }
  }

  lemma TwiceOneMore<A>(items: seq<A>, x: A, key: A -> Option<string>)
    ensures Twice(items + [x], key) <==> Twice(items, key) || (key(x).Some? && HasKey(items, key, key(x).value))
  {
    var all := items + [x];
    if Twice(items, key) {
      var i, j :| 0 <= i < j < |items| && key(items[i]).Some? && key(items[i]) == key(items[j]);
      assert all[i] == items[i] && all[j] == items[j];
    }
    if key(x).Some? && HasKey(items, key, key(x).value) {
      var i :| 0 <= i < |items| && key(items[i]) == Some(key(x).value);
      assert all[i] == items[i] && all[|items|] == x;
    }
  }

  lemma DistinctOneMore<T>(s: seq<T>, x: T)
    ensures Distinct(s + [x]) <==> Distinct(s) && x !in s
  {
    var all := s + [x];
    if Distinct(all) {
      forall i, j | 0 <= i < j < |s| ensures s[i] != s[j] { assert all[i] != all[j]; }
      forall i | 0 <= i < |s| ensures s[i] != x { assert all[i] != all[|s|]; }
    }
  }

  lemma {:induction false} KeysDifferIff<A>(items: seq<A>, key: A -> Option<string>)
    ensures Distinct(KeysOf(items, key)) <==> !Twice(items, key)
  {
    if items != [] {
      var before, x := items[..|items| - 1], items[|items| - 1];
      assert items == before + [x];
      KeysDifferIff(before, key);
      TwiceOneMore(before, x, key);
      if key(x).Some? {
        KeysHold(before, key, key(x).value);
        DistinctOneMore(KeysOf(before, key), key(x).value);
      } else {
        assert KeysOf(items, key) == KeysOf(before, key);
      }
    }
  }
}
