/**
  * Grouping by key into a record, as `forEach` over the rows with
  * `if (!groups[key]) groups[key] = create(row); update(groups[key], row)` and
  * then `Object.values(groups)` does it: one summary per key, listed in the
  * order the keys first appear. The record is a map from string keys plus the
  * list of its keys in insertion order; the summary type and the way a row is
  * added to it are parameters.
  */
module Grouping {
  import opened Seqs

  /** The keys in order of first appearance. */
  function KeysInOrder<T>(s: seq<T>, key: T -> string): seq<string> {
    if s == [] then []
    else
      var before := KeysInOrder(s[..|s| - 1], key);
      var k := key(s[|s| - 1]);
      if k in before then before else before + [k]
  }

  /** Each key is listed once, and the listed keys are exactly the keys of the elements. */
  lemma {:induction false} KeysInOrderSpec<T>(s: seq<T>, key: T -> string)
    ensures forall a, b :: 0 <= a < b < |KeysInOrder(s, key)| ==> KeysInOrder(s, key)[a] != KeysInOrder(s, key)[b]
    ensures forall k :: k in KeysInOrder(s, key) ==> exists j :: 0 <= j < |s| && key(s[j]) == k
    ensures forall j :: 0 <= j < |s| ==> key(s[j]) in KeysInOrder(s, key)
  {
    if s != [] {
      var front := s[..|s| - 1];
      KeysInOrderSpec(front, key);
      assert forall j :: 0 <= j < |front| ==> front[j] == s[j];
      var before, k := KeysInOrder(front, key), key(s[|s| - 1]);
      if k !in before {
        var ks := before + [k];
        forall a, b | 0 <= a < b < |ks|
          ensures ks[a] != ks[b]
        {
          if b == |before| {
            assert ks[a] == before[a];
          } else {
            assert ks[a] == before[a] && ks[b] == before[b];
          }
        }
      }
    }
  }

  /** The keys of a prefix come first and in the same order. */
  lemma {:induction false} KeysInOrderPrefix<T>(s: seq<T>, key: T -> string, j: nat)
    requires j <= |s|
    ensures |KeysInOrder(s[..j], key)| <= |KeysInOrder(s, key)|
    ensures KeysInOrder(s[..j], key) == KeysInOrder(s, key)[..|KeysInOrder(s[..j], key)|]
    decreases |s|
  {
    if j == |s| {
      assert s[..j] == s;
    } else {
      var front := s[..|s| - 1];
      assert front[..j] == s[..j];
      KeysInOrderPrefix(front, key, j);
    }
  }

  /** Keys are listed in order of first appearance: a key listed earlier occurs before every occurrence of a later one. */
  lemma FirstAppearanceOrder<T>(s: seq<T>, key: T -> string, a: nat, b: nat, j: nat)
    requires a < b < |KeysInOrder(s, key)|
    requires j < |s| && key(s[j]) == KeysInOrder(s, key)[b]
    ensures exists i :: 0 <= i < j && key(s[i]) == KeysInOrder(s, key)[a]
  {
    var ks := KeysInOrder(s, key);
    var pre := s[..j + 1];
    var p := KeysInOrder(pre, key);
    KeysInOrderPrefix(s, key, j + 1);
    KeysInOrderSpec(s, key);
    KeysInOrderSpec(pre, key);
    assert pre[j] == s[j];
    var c :| 0 <= c < |p| && p[c] == ks[b];
    assert p[c] == ks[c];
    assert c == b;
    assert ks[a] == p[a] && p[a] in p;
    var i :| 0 <= i < |pre| && key(pre[i]) == ks[a];
    assert pre[i] == s[i];
    assert i != j;
  }

  /** The elements with key `k`, in order. */
  function Members<T>(s: seq<T>, k: string, key: T -> string): (rs: seq<T>)
    ensures |rs| <= |s|
    ensures forall j :: 0 <= j < |rs| ==> key(rs[j]) == k
  {
    if s == [] then []
    else
      var last := s[|s| - 1];
      Members(s[..|s| - 1], k, key) + if key(last) == k then [last] else []
  }

  /** A key has no members exactly when no element has that key. */
  lemma {:induction false} MembersEmpty<T>(s: seq<T>, k: string, key: T -> string)
    ensures Members(s, k, key) == [] <==> forall j :: 0 <= j < |s| ==> key(s[j]) != k
  {
    if s != [] {
      var front := s[..|s| - 1];
      MembersEmpty(front, k, key);
      assert forall j :: 0 <= j < |front| ==> front[j] == s[j];
    }
  }

  /** A listed key has members. */
  lemma ListedKeyHasMembers<T>(s: seq<T>, k: string, key: T -> string)
    requires k in KeysInOrder(s, key)
    ensures Members(s, k, key) != []
  {
    KeysInOrderSpec(s, key);
    MembersEmpty(s, k, key);
  }

  /** A key that is not listed has no members. */
  lemma UnlistedKeyNoMembers<T>(s: seq<T>, k: string, key: T -> string)
    requires k !in KeysInOrder(s, key)
    ensures Members(s, k, key) == []
  {
    KeysInOrderSpec(s, key);
    MembersEmpty(s, k, key);
  }

  /** Every element is a member of the group of its own key, and of no other. */
  lemma {:induction false} MemberCount<T>(s: seq<T>, k: string, key: T -> string, x: T)
    ensures multiset(Members(s, k, key))[x] == if key(x) == k then multiset(s)[x] else 0
  {
    if s != [] {
      var front, last := s[..|s| - 1], s[|s| - 1];
      MemberCount(front, k, key, x);
      assert s == front + [last];
    }
  }

  /** The size of each key's group. */
  function Sizes<T>(s: seq<T>, key: T -> string): string -> int {
    k => |Members(s, k, key)|
  }

  /** One more element adds one to the total size of a list of distinct keys that holds its key. */
  lemma {:induction false} SizesStep<T>(s: seq<T>, ks: seq<string>, key: T -> string)
    requires s != []
    requires forall a, b :: 0 <= a < b < |ks| ==> ks[a] != ks[b]
    ensures SumBy(ks, Sizes(s, key)) == SumBy(ks, Sizes(s[..|s| - 1], key)) + if key(s[|s| - 1]) in ks then 1 else 0
  {
    if ks != [] {
      var rest := ks[1..];
      assert forall a, b :: 0 <= a < b < |rest| ==> rest[a] != rest[b] by {
        forall a, b | 0 <= a < b < |rest|
          ensures rest[a] != rest[b]
        {
          assert rest[a] == ks[a + 1] && rest[b] == ks[b + 1];
        }
      }
      SizesStep(s, rest, key);
      assert key(s[|s| - 1]) == ks[0] ==> key(s[|s| - 1]) !in rest by {
        forall j | 0 <= j < |rest|
          ensures rest[j] != ks[0]
        {
          assert rest[j] == ks[j + 1];
        }
      }
    }
  }

  /** The groups partition the elements: their sizes add up to the number of elements. */
  lemma {:induction false} MembersPartition<T>(s: seq<T>, key: T -> string)
    ensures SumBy(KeysInOrder(s, key), Sizes(s, key)) == |s|
  {
    if s != [] {
      var front, x := s[..|s| - 1], s[|s| - 1];
      var before := KeysInOrder(front, key);
      MembersPartition(front, key);
      KeysInOrderSpec(front, key);
      SizesStep(s, before, key);
      if key(x) !in before {
        SumByAppend(before, [key(x)], Sizes(s, key));
        assert [key(x)][1..] == [];
        UnlistedKeyNoMembers(front, key(x), key);
      }
    }
  }

  /** The summary of a non-empty group: created from its first element, then every element added in order. */
  function Fold<T, G>(rs: seq<T>, create: T -> G, add: (G, T) -> G): G
    requires rs != []
    decreases |rs|
  {
    var last := rs[|rs| - 1];
    var before := if |rs| == 1 then create(last) else Fold(rs[..|rs| - 1], create, add);
    add(before, last)
  }

  lemma FoldSnoc<T, G>(rs: seq<T>, x: T, create: T -> G, add: (G, T) -> G)
    requires rs != []
    ensures Fold(rs + [x], create, add) == add(Fold(rs, create, add), x)
  {
    assert (rs + [x])[..|rs|] == rs;
  }

  /** The summary of a listed key. */
  function GroupOf<T, G>(s: seq<T>, k: string, key: T -> string, create: T -> G, add: (G, T) -> G): G
    requires k in KeysInOrder(s, key)
  {
    ListedKeyHasMembers(s, k, key);
    Fold(Members(s, k, key), create, add)
  }

  /** `Object.values(groups)`: one summary per key, in order of first appearance. */
  function GroupsInOrder<T, G>(s: seq<T>, key: T -> string, create: T -> G, add: (G, T) -> G): (gs: seq<G>)
    ensures |gs| == |KeysInOrder(s, key)|
    ensures forall j :: 0 <= j < |gs| ==> gs[j] == GroupOf(s, KeysInOrder(s, key)[j], key, create, add)
  {
    var ks := KeysInOrder(s, key);
    seq(|ks|, j requires 0 <= j < |ks| => GroupOf(s, ks[j], key, create, add))
  }

  /** The record after the elements `s`: its keys in insertion order, and for each key the summary of its members. */
  ghost predicate TableInv<T, G>(table: map<string, G>, order: seq<string>, s: seq<T>, key: T -> string, create: T -> G,
                                    add: (G, T) -> G)
  {
    order == KeysInOrder(s, key) &&
    (forall k :: k in table <==> k in order) &&
    forall k :: k in table ==> Entry(table, s, k, key, create, add)
  }

  /** The record holds the summary of the members of `k`. */
  ghost predicate Entry<T, G>(table: map<string, G>, s: seq<T>, k: string, key: T -> string, create: T -> G, add: (G, T) -> G)
    requires k in table
  {
    Members(s, k, key) != [] && table[k] == Fold(Members(s, k, key), create, add)
  }

  lemma KeysStep<T>(s: seq<T>, i: nat, key: T -> string)
    requires i < |s|
    ensures var before := KeysInOrder(s[..i], key);
      KeysInOrder(s[..i + 1], key) == if key(s[i]) in before then before else before + [key(s[i])]
  {
    assert s[..i + 1][..i] == s[..i];
  }

  lemma MembersStep<T>(s: seq<T>, i: nat, k: string, key: T -> string)
    requires i < |s|
    ensures Members(s[..i + 1], k, key) == Members(s[..i], k, key) + if key(s[i]) == k then [s[i]] else []
  {
    assert s[..i + 1][..i] == s[..i];
  }

  /** The state before the first element. */
  lemma TableStart<T, G>(s: seq<T>, key: T -> string, create: T -> G, add: (G, T) -> G)
    ensures TableInv(map[], [], s[..0], key, create, add)
  {
    assert s[..0] == [];
  }

  /** The list of keys after one more element: its key is appended if it is new. */
  function NextOrder<T, G>(table: map<string, G>, order: seq<string>, x: T, key: T -> string): seq<string> {
    if key(x) in table then order else order + [key(x)]
  }

  /** The summary of `x`'s group once `x` is added to it. */
  function Updated<T, G>(table: map<string, G>, x: T, key: T -> string, create: T -> G, add: (G, T) -> G): G {
    add(if key(x) in table then table[key(x)] else create(x), x)
  }

  /** One pass of the loop keeps the insertion order and the record's keys in step. */
  lemma OrderStep<T, G>(table: map<string, G>, order: seq<string>, v: G,
                        s: seq<T>, i: nat, key: T -> string, create: T -> G, add: (G, T) -> G)
    requires i < |s| && TableInv(table, order, s[..i], key, create, add)
    ensures NextOrder(table, order, s[i], key) == KeysInOrder(s[..i + 1], key)
    ensures forall k :: k in table[key(s[i]) := v] <==> k in NextOrder(table, order, s[i], key)
  {
    KeysStep(s, i, key);
  }

  /** One pass of the loop, for the entry of one key. */
  lemma EntryStep<T, G>(table: map<string, G>, order: seq<string>,
                        s: seq<T>, i: nat, key: T -> string, create: T -> G, add: (G, T) -> G, k: string)
    requires i < |s| && TableInv(table, order, s[..i], key, create, add)
    requires k in table[key(s[i]) := Updated(table, s[i], key, create, add)]
    ensures Entry(table[key(s[i]) := Updated(table, s[i], key, create, add)], s[..i + 1], k, key, create, add)
  {
    var x := s[i];
    MembersStep(s, i, k, key);
    var before := Members(s[..i], k, key);
    if k != key(x) {
      assert k in table && Entry(table, s[..i], k, key, create, add);
      assert Members(s[..i + 1], k, key) == before;
    } else if k in table {
      assert Entry(table, s[..i], k, key, create, add);
      FoldSnoc(before, x, create, add);
    } else {
      UnlistedKeyNoMembers(s[..i], k, key);
      assert Members(s[..i + 1], k, key) == [x];
    }
  }

  /** One pass of the loop keeps `TableInv`. */
  lemma TableStep<T, G>(table: map<string, G>, order: seq<string>,
                        s: seq<T>, i: nat, key: T -> string, create: T -> G, add: (G, T) -> G)
    requires i < |s| && TableInv(table, order, s[..i], key, create, add)
    ensures TableInv(table[key(s[i]) := Updated(table, s[i], key, create, add)], NextOrder(table, order, s[i], key),
                     s[..i + 1], key, create, add)
  {
    var next := table[key(s[i]) := Updated(table, s[i], key, create, add)];
    OrderStep(table, order, Updated(table, s[i], key, create, add), s, i, key, create, add);
    forall k | k in next
      ensures Entry(next, s[..i + 1], k, key, create, add)
    {
      EntryStep(table, order, s, i, key, create, add, k);
    }
  }

  /** The summaries of the record, in insertion order. */
  function Listed<G>(table: map<string, G>, order: seq<string>): (gs: seq<G>)
    requires forall k :: k in order ==> k in table
    ensures |gs| == |order|
    ensures forall j :: 0 <= j < |order| ==> gs[j] == table[order[j]]
  {
    seq(|order|, j requires 0 <= j < |order| => table[order[j]])
  }

  /** After all elements the record lists exactly `GroupsInOrder`. */
  lemma TableDone<T, G>(table: map<string, G>, order: seq<string>, s: seq<T>, key: T -> string, create: T -> G, add: (G, T) -> G)
    requires TableInv(table, order, s[..|s|], key, create, add)
    ensures order == KeysInOrder(s, key)
    ensures forall k :: k in order ==> k in table
    ensures Listed(table, order) == GroupsInOrder(s, key, create, add)
  {
    assert s[..|s|] == s;
    var ks := KeysInOrder(s, key);
    forall j | 0 <= j < |ks|
      ensures table[ks[j]] == GroupOf(s, ks[j], key, create, add)
    {
      assert Entry(table, s, ks[j], key, create, add);
    }
  }
}
