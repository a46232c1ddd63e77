/** JSON values as Go's encoding/json hands them out, and the sorted order of member names. */
module Json {
  import opened Prelude

  datatype Json =
    | Null
    | Bool(b: bool)
    | Num(r: real)
    | Str(s: string)
    | Arr(items: seq<Json>)
    | Obj(members: map<string, Json>)

  /** The comparison sort.Strings uses. */
  predicate AtMost(a: string, b: string) {
    a == [] || (b != [] && (a[0] < b[0] || (a[0] == b[0] && AtMost(a[1..], b[1..]))))
  }

  lemma {:induction false} AtMostTotal(a: string, b: string)
    ensures AtMost(a, b) || AtMost(b, a)
    ensures AtMost(a, b) && AtMost(b, a) ==> a == b
  {
    if a != [] && b != [] && a[0] == b[0] {
      AtMostTotal(a[1..], b[1..]);
      assert a == [a[0]] + a[1..] && b == [b[0]] + b[1..];
    }
  }

  lemma {:induction false} AtMostTransitive(a: string, b: string, c: string)
    requires AtMost(a, b) && AtMost(b, c)
    ensures AtMost(a, c)
  {
    if a != [] && b != [] && c != [] && a[0] == b[0] == c[0] {
      AtMostTransitive(a[1..], b[1..], c[1..]);
    }
  }

  /** The first character in which they differ decides, and a beginning comes before the whole. */
  lemma {:induction false} AtMostIsLexicographic(a: string, b: string)
    ensures AtMost(a, b) <==> a <= b || exists i | 0 <= i < |a| && i < |b| :: a[..i] == b[..i] && a[i] < b[i]
  {
    if a != [] && b != [] {
      assert a == [a[0]] + a[1..] && b == [b[0]] + b[1..];
      if a[0] == b[0] {
        AtMostIsLexicographic(a[1..], b[1..]);
        assert a <= b <==> a[1..] <= b[1..];
        if i :| 0 <= i < |a| && i < |b| && a[..i] == b[..i] && a[i] < b[i] {
          assert a[1..][..i - 1] == a[..i][1..] && b[1..][..i - 1] == b[..i][1..];
          assert a[1..][i - 1] < b[1..][i - 1];
        }
        if i :| 0 <= i < |a| - 1 && i < |b| - 1 && a[1..][..i] == b[1..][..i] && a[1..][i] < b[1..][i] {
          assert a[..i + 1] == [a[0]] + a[1..][..i] && b[..i + 1] == [b[0]] + b[1..][..i];
          assert a[i + 1] < b[i + 1];
        }
      } else {
        assert a[..0] == b[..0];
        if i :| 0 <= i < |a| && i < |b| && a[..i] == b[..i] && a[i] < b[i] {
          assert i > 0 ==> a[..i][0] == b[..i][0];
        }
      }
    }
  }

  predicate IsLeast(k: string, keys: set<string>) {
    k in keys && forall other | other in keys :: AtMost(k, other)
  }

  lemma {:induction false} LeastExists(keys: set<string>) returns (k: string)
    requires keys != {}
    ensures IsLeast(k, keys)
    decreases |keys|
  {
    k :| k in keys;
    var rest := keys - {k};
    AtMostTotal(k, k);
    if rest != {} {
      var m := LeastExists(rest);
      AtMostTotal(k, m);
      if !AtMost(k, m) {
        k := m;
      } else {
        forall other | other in rest ensures AtMost(k, other) { AtMostTransitive(k, m, other); }
      }
    }
  }

  ghost function Least(keys: set<string>): (k: string)
    requires keys != {}
    ensures IsLeast(k, keys)
  {
    assert exists k :: IsLeast(k, keys) by {
      var k := LeastExists(keys);
    }
    var k :| IsLeast(k, keys);
    k
  }

  /** The member names in order, each once. */
  ghost function SortedKeys(keys: set<string>): (r: seq<string>)
    ensures forall k :: k in r <==> k in keys
    decreases |keys|
  {
    if keys == {} then []
    else
      var k := Least(keys);
      [k] + SortedKeys(keys - {k})
  }

  predicate NoRepeats(keys: seq<string>) {
    forall i, j | 0 <= i < j < |keys| :: keys[i] != keys[j]
  }

  predicate Ascending(keys: seq<string>) {
    forall i, j | 0 <= i < j < |keys| :: AtMost(keys[i], keys[j])
  }

  /** In order, and each once. */
  lemma {:induction false} SortedKeysAscend(keys: set<string>)
    ensures NoRepeats(SortedKeys(keys)) && Ascending(SortedKeys(keys))
    decreases |keys|
  {
    if keys != {} {
      var k, r := Least(keys), SortedKeys(keys);
      SortedKeysAscend(keys - {k});
      forall j | 0 < j < |r| ensures r[j] != k && AtMost(k, r[j]) {
        assert r[j] in SortedKeys(keys - {k});
      }
    }
  }

  lemma SortedKeysHead(keys: set<string>, k: string)
    requires IsLeast(k, keys)
    ensures SortedKeys(keys) == [k] + SortedKeys(keys - {k})
  {
    AtMostTotal(k, Least(keys));
  }

  method SelectLeast(keys: set<string>) returns (k: string)
    requires keys != {}
    ensures IsLeast(k, keys)
  {
    k :| k in keys;
    AtMostTotal(k, k);
    var rest := keys - {k};
    while rest != {}
      invariant rest <= keys && IsLeast(k, keys - rest)
      decreases |rest|
    {
      var o: string :| o in rest;
      rest := rest - {o};
      AtMostTotal(k, o);
      if !AtMost(k, o) {
        AtMostTotal(o, o);
        forall other | other in keys - rest ensures AtMost(o, other) {
          if other != o { AtMostTransitive(o, k, other); }
        }
        k := o;
      }
    }
    assert keys - rest == keys;
  }

  method SortStrings(keys: set<string>) returns (r: seq<string>)
    ensures r == SortedKeys(keys)
  {
    r := [];
    var rest := keys;
    while rest != {}
      invariant SortedKeys(keys) == r + SortedKeys(rest)
      decreases |rest|
    {
      var k := SelectLeast(rest);
      SortedKeysHead(rest, k);
      ConcatAssociates(r, [k], SortedKeys(rest - {k}));
      r := r + [k];
      rest := rest - {k};
    }
  }
}
