/** Association lists kept in strictly ascending key order: the reference behaviour of the price index. */
module SortedEntries {

  datatype Option<+T> = None | Some(value: T)

  type Entries<V> = seq<(int, V)>

  ghost predicate StrictlySorted(keys: seq<int>) {
    forall i, j :: 0 <= i < j < |keys| ==> keys[i] < keys[j]
  }

  ghost predicate Ascending<V>(es: Entries<V>) {
    forall i, j :: 0 <= i < j < |es| ==> es[i].0 < es[j].0
  }

  /** Every key lies in the half-open interval lo..hi. */
  ghost predicate KeysIn<V>(es: Entries<V>, lo: int, hi: int) {
    forall i :: 0 <= i < |es| ==> lo <= es[i].0 < hi
  }

  ghost predicate Below<V>(es: Entries<V>, key: int) {
    forall i :: 0 <= i < |es| ==> es[i].0 < key
  }

  ghost predicate Above<V>(es: Entries<V>, key: int) {
    forall i :: 0 <= i < |es| ==> key < es[i].0
  }

  /** The entries of two parallel arrays. */
  ghost function Zip<V>(keys: seq<int>, values: seq<V>): (es: Entries<V>)
    requires |keys| == |values|
    ensures |es| == |keys|
  {
    seq(|keys|, i requires 0 <= i < |keys| => (keys[i], values[i]))
  }

  ghost function Find<V>(es: Entries<V>, key: int): Option<V> {
    if es == [] then None
    else if es[0].0 == key then Some(es[0].1)
    else Find(es[1..], key)
  }

  ghost function Put<V>(es: Entries<V>, key: int, value: V): Entries<V> {
    if es == [] || key < es[0].0 then [(key, value)] + es
    else if es[0].0 == key then [(key, value)] + es[1..]
    else [es[0]] + Put(es[1..], key, value)
  }

  ghost function Del<V>(es: Entries<V>, key: int): Entries<V> {
    if es == [] then []
    else if es[0].0 == key then es[1..]
    else [es[0]] + Del(es[1..], key)
  }

  ghost function ToMap<V>(es: Entries<V>): map<int, V> {
    if es == [] then map[] else ToMap(es[1..])[es[0].0 := es[0].1]
  }

  // ---- what the list operations do to the middle of a list

  ghost predicate NoDup<T>(c: seq<T>) {
    forall i, j :: 0 <= i < j < |c| ==> c[i] != c[j]
  }

  lemma {:induction false} Assoc<T>(a: seq<T>, b: seq<T>, c: seq<T>)
    ensures a + (b + c) == a + b + c
  {
  }

  lemma {:induction false} Regroup<T>(pre: seq<T>, a: seq<T>, m: seq<T>, b: seq<T>, post: seq<T>)
    ensures pre + (a + m + b) + post == (pre + a) + m + (b + post)
  {
  }

  lemma {:induction false} PutBehindPrefix<V>(a: Entries<V>, l: Entries<V>, key: int, value: V)
    requires Below(a, key)
    ensures Put(a + l, key, value) == a + Put(l, key, value)
  {
    if a == [] {
      assert a + l == l;
    } else {
      PutBehindPrefix(a[1..], l, key, value);
      assert (a + l)[0] == a[0] && (a + l)[1..] == a[1..] + l;
      Assoc([a[0]], a[1..], Put(l, key, value));
    }
  }

  lemma {:induction false} DelBehindPrefix<V>(a: Entries<V>, l: Entries<V>, key: int)
    requires Below(a, key)
    ensures Del(a + l, key) == a + Del(l, key)
    ensures Find(a + l, key) == Find(l, key)
  {
    if a == [] {
      assert a + l == l;
    } else {
      DelBehindPrefix(a[1..], l, key);
      assert (a + l)[0] == a[0] && (a + l)[1..] == a[1..] + l;
      Assoc([a[0]], a[1..], Del(l, key));
    }
  }

  lemma {:induction false} PutBeforeSuffix<V>(l: Entries<V>, b: Entries<V>, key: int, value: V)
    requires Above(b, key)
    ensures Put(l + b, key, value) == Put(l, key, value) + b
  {
    if l == [] {
      assert l + b == b;
    } else {
      var lb := l + b;
      assert lb[0] == l[0] && lb[1..] == l[1..] + b;
      if key < l[0].0 {
        Assoc([(key, value)], l, b);
      } else if l[0].0 == key {
        Assoc([(key, value)], l[1..], b);
      } else {
        PutBeforeSuffix(l[1..], b, key, value);
        Assoc([l[0]], Put(l[1..], key, value), b);
      }
    }
  }

  lemma {:induction false} DelBeforeSuffix<V>(l: Entries<V>, b: Entries<V>, key: int)
    requires Above(b, key)
    ensures Del(l + b, key) == Del(l, key) + b
  {
    if l == [] {
      assert l + b == b;
      DelAbsent(b, key);
    } else {
      var lb := l + b;
      assert lb[0] == l[0] && lb[1..] == l[1..] + b;
      DelBeforeSuffix(l[1..], b, key);
      Assoc([l[0]], Del(l[1..], key), b);
    }
  }

  lemma {:induction false} FindBeforeSuffix<V>(l: Entries<V>, b: Entries<V>, key: int)
    requires Above(b, key)
    ensures Find(l + b, key) == Find(l, key)
  {
    if l == [] {
      assert l + b == b;
      DelAbsent(b, key);
    } else {
      FindBeforeSuffix(l[1..], b, key);
      assert (l + b)[0] == l[0] && (l + b)[1..] == l[1..] + b;
    }
  }

  /** An operation on a key only touches the stretch of the list the key belongs to. */
  lemma {:induction false} PutInMiddle<V>(a: Entries<V>, l: Entries<V>, b: Entries<V>, key: int, value: V)
    requires Below(a, key) && Above(b, key)
    ensures Put(a + l + b, key, value) == a + Put(l, key, value) + b
  {
    hide Put;
    PutBeforeSuffix(a + l, b, key, value);
    PutBehindPrefix(a, l, key, value);
  }

  lemma {:induction false} DelInMiddle<V>(a: Entries<V>, l: Entries<V>, b: Entries<V>, key: int)
    requires Below(a, key) && Above(b, key)
    ensures Del(a + l + b, key) == a + Del(l, key) + b
    ensures Find(a + l + b, key) == Find(l, key)
  {
    hide Del, Find;
    DelBeforeSuffix(a + l, b, key);
    FindBeforeSuffix(a + l, b, key);
    DelBehindPrefix(a, l, key);
  }

  lemma {:induction false} DelAbsent<V>(es: Entries<V>, key: int)
    requires forall i :: 0 <= i < |es| ==> es[i].0 != key
    ensures Del(es, key) == es && Find(es, key) == None
  {
    if es != [] {
      DelAbsent(es[1..], key);
    }
  }

  // ---- what the list operations mean as a finite map

  lemma {:induction false} MapDomain<V>(es: Entries<V>)
    requires Ascending(es)
    ensures forall k :: k in ToMap(es) ==> exists i :: 0 <= i < |es| && es[i].0 == k
    ensures forall i :: 0 <= i < |es| ==> es[i].0 in ToMap(es) && ToMap(es)[es[i].0] == es[i].1
  {
    if es != [] {
      var rest := es[1..];
      MapDomain(rest);
      assert forall i :: 0 < i < |es| ==> es[i] == rest[i - 1];
      assert es[0].0 !in ToMap(rest);
    }
  }

  lemma {:induction false} MapSize<V>(es: Entries<V>)
    requires Ascending(es)
    ensures |ToMap(es)| == |es|
  {
    if es != [] {
      MapSize(es[1..]);
      MapDomain(es[1..]);
      assert es[0].0 !in ToMap(es[1..]);
      assert ToMap(es).Keys == ToMap(es[1..]).Keys + {es[0].0};
    }
  }

  lemma {:induction false} FindMeans<V>(es: Entries<V>, key: int)
    requires Ascending(es)
    ensures Find(es, key) == if key in ToMap(es) then Some(ToMap(es)[key]) else None
  {
    if es != [] {
      FindMeans(es[1..], key);
    }
  }

  lemma {:induction false} PutAddsOnly<V>(es: Entries<V>, key: int, value: V)
    ensures forall e :: e in Put(es, key, value) ==> e in es || e == (key, value)
  {
    if es != [] && es[0].0 < key {
      PutAddsOnly(es[1..], key, value);
    }
  }

  lemma {:induction false} PutAscends<V>(es: Entries<V>, key: int, value: V)
    requires Ascending(es)
    ensures Ascending(Put(es, key, value))
  {
    if es != [] && es[0].0 < key {
      var p := Put(es[1..], key, value);
      PutAscends(es[1..], key, value);
      PutAddsOnly(es[1..], key, value);
      forall i | 0 <= i < |p| ensures es[0].0 < p[i].0 {
        assert p[i] in p;
      }
    }
  }

  lemma {:induction false} PutMeans<V>(es: Entries<V>, key: int, value: V)
    requires Ascending(es)
    ensures ToMap(Put(es, key, value)) == ToMap(es)[key := value]
    ensures |Put(es, key, value)| == |es| + (if Find(es, key) == None then 1 else 0)
  {
    if es == [] {
    } else if key < es[0].0 {
      DelAbsent(es, key);
    } else if es[0].0 < key {
      PutMeans(es[1..], key, value);
    }
  }

  lemma {:induction false} DelAscends<V>(es: Entries<V>, key: int)
    requires Ascending(es)
    ensures Ascending(Del(es, key))
    ensures |Del(es, key)| == |es| - (if Find(es, key) == None then 0 else 1)
  {
    if es != [] && es[0].0 != key {
      var d := Del(es[1..], key);
      DelAscends(es[1..], key);
      DelIsSublist(es[1..], key);
      forall i | 0 <= i < |d| ensures es[0].0 < d[i].0 {
        assert d[i] in d;
      }
    }
  }

  lemma {:induction false} DelMeans<V>(es: Entries<V>, key: int)
    requires Ascending(es)
    ensures ToMap(Del(es, key)) == ToMap(es) - {key}
  {
    if es == [] {
    } else if es[0].0 == key {
      MapDomain(es[1..]);
      assert key !in ToMap(es[1..]);
    } else {
      DelMeans(es[1..], key);
    }
  }

  lemma {:induction false} DelIsSublist<V>(es: Entries<V>, key: int)
    ensures forall e :: e in Del(es, key) ==> e in es
  {
    if es != [] {
      DelIsSublist(es[1..], key);
    }
  }

  lemma {:induction false} WithoutFirst<T>(a: seq<T>, b: seq<T>, i: nat)
    requires a != [] && i < |b| && b[i] == a[0] && multiset(a) == multiset(b)
    ensures multiset(a[1..]) == multiset(b[..i] + b[i + 1..])
  {
    assert a == [a[0]] + a[1..];
    assert b == b[..i] + [a[0]] + b[i + 1..];
    assert multiset(a[1..]) == multiset(a) - multiset{a[0]};
    assert multiset(b[..i] + b[i + 1..]) == multiset(b) - multiset{a[0]};
  }
}
