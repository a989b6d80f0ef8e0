/** The structural difference of two JSON values, as a list of changes that patches one into the other. */
module JsonDiff {

  /** Numbers are compared by their representation and never computed with. */
  datatype Value =
    | Null
    | Boolean(value: bool)
    | Number(text: string)
    | Text(chars: string)
    | Array(items: seq<Value>)
    | Object(fields: map<string, Value>)

  /** Paths are kept as lists of keys; Render gives the text the program emits. */
  datatype Change = Change(path: seq<string>, before: Value, after: Value)

  /** A missing member counts as null. */
  function Member(v: Value, key: string): Value {
    if v.Object? && key in v.fields then v.fields[key] else Null
  }

  function KeysOf(v: Value): set<string> {
    if v.Object? then v.fields.Keys else {}
  }

  // ---------- Size of a value ----------

  ghost function Largest(s: set<nat>): (m: nat)
    ensures forall x | x in s :: x <= m
  {
    if s == {} then 0 else
    var x :| x in s;
    var rest := Largest(s - {x});
    assert forall y | y in s :: y == x || y in s - {x};
    if x > rest then x else rest
  }

  ghost function Height(v: Value): (h: nat)
    ensures v.Object? ==> h > 0 && forall k | k in v.fields :: Height(v.fields[k]) < h
  {
    match v
    case Object(fields) =>
      var heights := set k | k in fields :: Height(fields[k]);
      assert forall k | k in fields :: Height(fields[k]) in heights;
      1 + Largest(heights)
    case _ => 0
  }

  lemma MemberIsLower(v: Value, key: string)
    requires v.Object?
    ensures Height(Member(v, key)) < Height(v)
  {
    var h := Height(v);
  }

  // ---------- The order of a BTreeSet of keys ----------

  predicate Less(a: string, b: string) {
    b != [] && (a == [] || a[0] < b[0] || (a[0] == b[0] && Less(a[1..], b[1..])))
  }

  lemma {:induction false} LessTotal(a: string, b: string)
    ensures a == b || Less(a, b) || Less(b, a)
    ensures !(Less(a, b) && Less(b, a)) && !Less(a, a)
  {
    if a != [] && b != [] {
      LessTotal(a[1..], b[1..]);
      LessTotal(a[1..], a[1..]);
      assert a == [a[0]] + a[1..] && b == [b[0]] + b[1..];
    } else if a != [] {
      LessTotal(a[1..], a[1..]);
    }
  }

  lemma {:induction false} LessTransitive(a: string, b: string, c: string)
    requires Less(a, b) && Less(b, c)
    ensures Less(a, c)
  {
    if a == [] || a[0] < b[0] || b[0] < c[0] {
    } else {
      LessTransitive(a[1..], b[1..], c[1..]);
    }
  }

  predicate IsFirst(keys: set<string>, key: string) {
    key in keys && forall other | other in keys :: !Less(other, key)
  }

  lemma {:induction false} FirstExists(keys: set<string>) returns (key: string)
    requires keys != {}
    ensures IsFirst(keys, key)
  {
    var x :| x in keys;
    LessTotal(x, x);
    if keys == {x} {
      key := x;
    } else {
      key := FirstExists(keys - {x});
      LessTotal(x, key);
      if Less(x, key) {
        forall other | other in keys ensures !Less(other, x) {
          if Less(other, x) { LessTransitive(other, x, key); }
        }
        key := x;
      }
    }
  }

  lemma FirstIsUnique(keys: set<string>, a: string, b: string)
    requires IsFirst(keys, a) && IsFirst(keys, b)
    ensures a == b
  {
    LessTotal(a, b);
  }

  lemma FirstIsThere(keys: set<string>)
    requires keys != {}
    ensures exists key :: IsFirst(keys, key)
  {
    var key := FirstExists(keys);
  }

  ghost function FirstOf(keys: set<string>): (key: string)
    requires keys != {}
    ensures IsFirst(keys, key)
  {
    FirstIsThere(keys);
    var key :| IsFirst(keys, key);
    key
  }

  ghost function SortedKeys(keys: set<string>): (r: seq<string>)
    ensures forall k :: k in r <==> k in keys
    ensures forall i, j | 0 <= i < j < |r| :: r[i] != r[j]
  {
    if keys == {} then [] else [FirstOf(keys)] + SortedKeys(keys - {FirstOf(keys)})
  }

  // ---------- The difference ----------

  /** The walk: what it adds to the list of changes. */
  ghost function Diff(path: seq<string>, before: Value, after: Value): seq<Change>
    decreases Height(before) + Height(after), 1, 0
  {
    if before == after then []
    else if before.Object? && after.Object? then
      DiffKeys(path, before, after, SortedKeys(KeysOf(before) + KeysOf(after)))
    else [Change(path, before, after)]
  }

  ghost function DiffKeys(path: seq<string>, before: Value, after: Value, keys: seq<string>): seq<Change>
    requires before.Object? && after.Object?
    decreases Height(before) + Height(after), 0, |keys|
  {
    if keys == [] then [] else
    MemberIsLower(before, keys[0]);
    MemberIsLower(after, keys[0]);
    Diff(path + [keys[0]], Member(before, keys[0]), Member(after, keys[0]))
      + DiffKeys(path, before, after, keys[1..])
  }

  lemma FirstGroup(path: seq<string>, before: Value, after: Value, keys: set<string>, key: string)
    requires before.Object? && after.Object? && IsFirst(keys, key)
    ensures DiffKeys(path, before, after, SortedKeys(keys))
            == Diff(path + [key], Member(before, key), Member(after, key))
               + DiffKeys(path, before, after, SortedKeys(keys - {key}))
  {
    FirstIsUnique(keys, key, FirstOf(keys));
    assert SortedKeys(keys)[1..] == SortedKeys(keys - {key});
  }

  lemma DiffUnfolds(path: seq<string>, before: Value, after: Value)
    ensures Diff(path, before, after) ==
            if before == after then []
            else if before.Object? && after.Object? then
              DiffKeys(path, before, after, SortedKeys(before.fields.Keys + after.fields.Keys))
            else [Change(path, before, after)]
    ensures before.Object? && after.Object? ==> DiffKeys(path, before, after, SortedKeys({})) == []
  {
  }

  /** walk appends to a shared list; json_changes starts it at the root. */
  method Walk(path: seq<string>, before: Value, after: Value, changes: seq<Change>) returns (r: seq<Change>)
    ensures r == changes + Diff(path, before, after)
    decreases Height(before) + Height(after), 1
  {
    hide Diff, DiffKeys, SortedKeys, Height;
    DiffUnfolds(path, before, after);
    if before == after {
      return changes;
    }
    if before.Object? && after.Object? {
      r := WalkMembers(path, before, after, changes);
    } else {
      r := changes + [Change(path, before, after)];
    }
  }

  /** The loop of walk over the members of two objects, in key order. */
  method WalkMembers(path: seq<string>, before: Value, after: Value, changes: seq<Change>) returns (r: seq<Change>)
    requires before.Object? && after.Object?
    ensures r == changes + DiffKeys(path, before, after, SortedKeys(before.fields.Keys + after.fields.Keys))
    decreases Height(before) + Height(after), 0
  {
    hide Diff, DiffKeys, SortedKeys, Height, IsFirst, Member;
    r := changes;
    var keys := before.fields.Keys + after.fields.Keys;
    ghost var all := changes + DiffKeys(path, before, after, SortedKeys(keys));
    while keys != {}
      invariant r + DiffKeys(path, before, after, SortedKeys(keys)) == all
      decreases |keys|
    {
      FirstIsThere(keys);
      var key :| IsFirst(keys, key);
      FirstStep(path, before, after, keys, key, r);
      r := Walk(path + [key], Member(before, key), Member(after, key), r);
      keys := keys - {key};
    }
    DiffUnfolds(path, before, after);
  }

  /** Taking the first key: its changes come next, and its members are smaller. */
  lemma FirstStep(path: seq<string>, before: Value, after: Value, keys: set<string>, key: string, r: seq<Change>)
    requires before.Object? && after.Object? && IsFirst(keys, key)
    ensures key in keys
    ensures Height(Member(before, key)) + Height(Member(after, key)) < Height(before) + Height(after)
    ensures r + Diff(path + [key], Member(before, key), Member(after, key))
              + DiffKeys(path, before, after, SortedKeys(keys - {key}))
         == r + DiffKeys(path, before, after, SortedKeys(keys))
  {
    hide Diff, DiffKeys, SortedKeys, Height, Member;
    FirstGroup(path, before, after, keys, key);
    MemberIsLower(before, key);
    MemberIsLower(after, key);
  }

  method JsonChanges(before: Value, after: Value) returns (r: seq<Change>)
    ensures r == Diff([], before, after)
  {
    r := Walk([], before, after, []);
  }

  // ---------- Equality up to null members ----------

  /** The value without its null members, at every object reached through objects. */
  function Strip(v: Value): Value {
    match v
    case Object(fields) => Object(map k | k in fields && fields[k] != Null :: Strip(fields[k]))
    case _ => v
  }

  lemma MemberOfStrip(v: Value, key: string)
    requires v.Object?
    ensures Member(Strip(v), key) == Strip(Member(v, key))
    ensures key in Strip(v).fields <==> Member(v, key) != Null
  {
  }

  lemma StripByMembers(a: Value, b: Value)
    requires a.Object? && b.Object?
    ensures Strip(a) == Strip(b) <==> forall k :: Strip(Member(a, k)) == Strip(Member(b, k))
  {
    if Strip(a) == Strip(b) {
      forall k ensures Strip(Member(a, k)) == Strip(Member(b, k)) {
        MemberOfStrip(a, k);
        MemberOfStrip(b, k);
      }
    }
    if forall k :: Strip(Member(a, k)) == Strip(Member(b, k)) {
      forall k ensures k in Strip(a).fields <==> k in Strip(b).fields
               ensures k in Strip(a).fields ==> Strip(a).fields[k] == Strip(b).fields[k]
      {
        MemberOfStrip(a, k);
        MemberOfStrip(b, k);
        assert Strip(Member(a, k)) == Strip(Member(b, k));
      }
      assert Strip(a).fields == Strip(b).fields;
    }
  }

  /** Nothing is reported exactly when the values agree up to missing-versus-null members. */
  lemma {:induction false} EmptyDiffMeansSame(path: seq<string>, before: Value, after: Value)
    ensures Diff(path, before, after) == [] <==> Strip(before) == Strip(after)
    decreases Height(before) + Height(after), 1, 0
  {
    if before == after || !before.Object? || !after.Object? {
    } else {
      var keys := SortedKeys(KeysOf(before) + KeysOf(after));
      EmptyDiffKeys(path, before, after, keys);
      StripByMembers(before, after);
      forall k | k !in keys ensures Strip(Member(before, k)) == Strip(Member(after, k)) {
        assert k !in KeysOf(before) + KeysOf(after);
      }
    }
  }

  lemma {:induction false} EmptyDiffKeys(path: seq<string>, before: Value, after: Value, keys: seq<string>)
    requires before.Object? && after.Object?
    ensures DiffKeys(path, before, after, keys) == []
            <==> forall k | k in keys :: Strip(Member(before, k)) == Strip(Member(after, k))
    decreases Height(before) + Height(after), 0, |keys|
  {
    if keys == [] {
    } else {
      MemberIsLower(before, keys[0]);
      MemberIsLower(after, keys[0]);
      EmptyDiffMeansSame(path + [keys[0]], Member(before, keys[0]), Member(after, keys[0]));
      EmptyDiffKeys(path, before, after, keys[1..]);
      assert keys == [keys[0]] + keys[1..];
    }
  }

  // ---------- Patching ----------

  function Put(v: Value, path: seq<string>, x: Value): Value
    decreases |path|
  {
    if path == [] then x else
    var fields := if v.Object? then v.fields else map[];
    Object(fields[path[0] := Put(Member(v, path[0]), path[1..], x)])
  }

  function Patch(v: Value, changes: seq<Change>): Value
    decreases |changes|
  {
    if changes == [] then v else Patch(Put(v, changes[0].path, changes[0].after), changes[1..])
  }

  function Prefixed(key: string, changes: seq<Change>): seq<Change> {
    if changes == [] then [] else
    [changes[0].(path := [key] + changes[0].path)] + Prefixed(key, changes[1..])
  }

  lemma {:induction false} PrefixedAppend(key: string, a: seq<Change>, b: seq<Change>)
    ensures Prefixed(key, a + b) == Prefixed(key, a) + Prefixed(key, b)
  {
    if a == [] {
      assert a + b == b;
    } else {
      assert (a + b)[1..] == a[1..] + b;
      PrefixedAppend(key, a[1..], b);
    }
  }

  lemma {:induction false} PatchAppend(v: Value, a: seq<Change>, b: seq<Change>)
    ensures Patch(v, a + b) == Patch(Patch(v, a), b)
    decreases |a|
  {
    if a == [] {
      assert a + b == b;
    } else {
      assert (a + b)[1..] == a[1..] + b;
      PatchAppend(Put(v, a[0].path, a[0].after), a[1..], b);
    }
  }

  /** A difference below a key is the difference of the members with the key in front. */
  lemma {:induction false} DiffBelow(key: string, path: seq<string>, before: Value, after: Value)
    ensures Diff([key] + path, before, after) == Prefixed(key, Diff(path, before, after))
    decreases Height(before) + Height(after), 1, 0
  {
    if before == after || !before.Object? || !after.Object? {
    } else {
      DiffKeysBelow(key, path, before, after, SortedKeys(KeysOf(before) + KeysOf(after)));
    }
  }

  lemma {:induction false} DiffKeysBelow(key: string, path: seq<string>, before: Value, after: Value, keys: seq<string>)
    requires before.Object? && after.Object?
    ensures DiffKeys([key] + path, before, after, keys) == Prefixed(key, DiffKeys(path, before, after, keys))
    decreases Height(before) + Height(after), 0, |keys|
  {
    if keys == [] {
    } else {
      MemberIsLower(before, keys[0]);
      MemberIsLower(after, keys[0]);
      var first := Diff(path + [keys[0]], Member(before, keys[0]), Member(after, keys[0]));
      assert [key] + path + [keys[0]] == [key] + (path + [keys[0]]);
      DiffBelow(key, path + [keys[0]], Member(before, keys[0]), Member(after, keys[0]));
      DiffKeysBelow(key, path, before, after, keys[1..]);
      PrefixedAppend(key, first, DiffKeys(path, before, after, keys[1..]));
    }
  }

  /** Changes below one key change that member only. */
  lemma {:induction false} PatchBelow(v: Value, key: string, changes: seq<Change>)
    requires v.Object?
    ensures var r := Patch(v, Prefixed(key, changes));
            && r.Object?
            && Member(r, key) == Patch(Member(v, key), changes)
            && forall k | k != key :: Member(r, k) == Member(v, k)
    decreases |changes|
  {
    if changes == [] {
    } else {
      var c := changes[0];
      var p := [key] + c.path;
      assert p[0] == key && p[1..] == c.path;
      var next := Put(v, p, c.after);
      assert Member(next, key) == Put(Member(v, key), c.path, c.after);
      assert Prefixed(key, changes)[0] == c.(path := p);
      assert Prefixed(key, changes)[1..] == Prefixed(key, changes[1..]);
      PatchBelow(next, key, changes[1..]);
    }
  }

  /** Applying the changes to the old value gives the new one, up to null members. */
  lemma {:induction false} DiffPatches(before: Value, after: Value)
    ensures Strip(Patch(before, Diff([], before, after))) == Strip(after)
    decreases Height(before) + Height(after), 1, 0
  {
    if before != after && before.Object? && after.Object? {
      var keys := SortedKeys(KeysOf(before) + KeysOf(after));
      var r := Patch(before, DiffKeys([], before, after, keys));
      DiffKeysPatch(before, before, after, keys);
      forall k ensures Strip(Member(r, k)) == Strip(Member(after, k)) {
        if k !in keys {
          assert k !in KeysOf(before) + KeysOf(after);
        }
      }
      StripByMembers(r, after);
    } else if before != after {
      var c := Change([], before, after);
      assert Diff([], before, after) == [c];
      assert Patch(Put(before, [], after), []) == after;
    }
  }

  /** The groups of the keys act on separate members: `v` is the value with the groups before
      `keys` applied. */
  lemma {:induction false} DiffKeysPatch(v: Value, before: Value, after: Value, keys: seq<string>)
    requires before.Object? && after.Object? && v.Object?
    requires forall i, j | 0 <= i < j < |keys| :: keys[i] != keys[j]
    requires forall k | k in keys :: Member(v, k) == Member(before, k)
    ensures var r := Patch(v, DiffKeys([], before, after, keys));
            && r.Object?
            && (forall k | k in keys :: Strip(Member(r, k)) == Strip(Member(after, k)))
            && (forall k | k !in keys :: Member(r, k) == Member(v, k))
    decreases Height(before) + Height(after), 0, |keys|
  {
    if keys == [] {
    } else {
      var key := keys[0];
      MemberIsLower(before, key);
      MemberIsLower(after, key);
      var below := Diff([], Member(before, key), Member(after, key));
      assert [] + [key] == [key] + [];
      DiffBelow(key, [], Member(before, key), Member(after, key));
      PatchBelow(v, key, below);
      DiffPatches(Member(before, key), Member(after, key));
      var next := Patch(v, Prefixed(key, below));
      PatchAppend(v, Prefixed(key, below), DiffKeys([], before, after, keys[1..]));
      assert keys == [key] + keys[1..];
      assert key !in keys[1..];
      DiffKeysPatch(next, before, after, keys[1..]);
    }
  }

  // ---------- Shape of the list ----------

  function Swapped(changes: seq<Change>): seq<Change> {
    if changes == [] then [] else
    [Change(changes[0].path, changes[0].after, changes[0].before)] + Swapped(changes[1..])
  }

  lemma {:induction false} SwappedAppend(a: seq<Change>, b: seq<Change>)
    ensures Swapped(a + b) == Swapped(a) + Swapped(b)
  {
    if a == [] {
      assert a + b == b;
    } else {
      assert (a + b)[1..] == a[1..] + b;
      SwappedAppend(a[1..], b);
    }
  }

  /** Swapping the arguments swaps before and after in every entry, and nothing else. */
  lemma {:induction false} DiffSwaps(path: seq<string>, before: Value, after: Value)
    ensures Diff(path, after, before) == Swapped(Diff(path, before, after))
    decreases Height(before) + Height(after), 1, 0
  {
    if before == after || !before.Object? || !after.Object? {
    } else {
      assert KeysOf(before) + KeysOf(after) == KeysOf(after) + KeysOf(before);
      DiffKeysSwap(path, before, after, SortedKeys(KeysOf(before) + KeysOf(after)));
    }
  }

  lemma {:induction false} DiffKeysSwap(path: seq<string>, before: Value, after: Value, keys: seq<string>)
    requires before.Object? && after.Object?
    ensures DiffKeys(path, after, before, keys) == Swapped(DiffKeys(path, before, after, keys))
    decreases Height(before) + Height(after), 0, |keys|
  {
    if keys == [] {
    } else {
      MemberIsLower(before, keys[0]);
      MemberIsLower(after, keys[0]);
      DiffSwaps(path + [keys[0]], Member(before, keys[0]), Member(after, keys[0]));
      DiffKeysSwap(path, before, after, keys[1..]);
      SwappedAppend(Diff(path + [keys[0]], Member(before, keys[0]), Member(after, keys[0])),
                    DiffKeys(path, before, after, keys[1..]));
    }
  }

  /** No reported path lies above or at another one. */
  ghost predicate PrefixFree(changes: seq<Change>) {
    forall i, j | 0 <= i < |changes| && 0 <= j < |changes| && i != j :: !(changes[i].path <= changes[j].path)
  }

  lemma {:induction false} PathsExtend(path: seq<string>, before: Value, after: Value)
    ensures forall i | 0 <= i < |Diff(path, before, after)| :: path <= Diff(path, before, after)[i].path
    ensures PrefixFree(Diff(path, before, after))
    decreases Height(before) + Height(after), 1, 0
  {
    if before == after || !before.Object? || !after.Object? {
    } else {
      KeyPathsExtend(path, before, after, SortedKeys(KeysOf(before) + KeysOf(after)));
      assert GoThrough(path, SortedKeys(KeysOf(before) + KeysOf(after)), Diff(path, before, after));
    }
  }

  /** Every path goes below the start, through one of the keys. */
  ghost predicate GoThrough(path: seq<string>, keys: seq<string>, changes: seq<Change>) {
    forall i | 0 <= i < |changes| ::
      |changes[i].path| > |path| && path <= changes[i].path && changes[i].path[|path|] in keys
  }

  lemma {:induction false} KeyPathsExtend(path: seq<string>, before: Value, after: Value, keys: seq<string>)
    requires before.Object? && after.Object?
    requires forall i, j | 0 <= i < j < |keys| :: keys[i] != keys[j]
    ensures GoThrough(path, keys, DiffKeys(path, before, after, keys))
    ensures PrefixFree(DiffKeys(path, before, after, keys))
    decreases Height(before) + Height(after), 0, |keys|
  {
    if keys == [] {
    } else {
      hide GoThrough, PrefixFree, Diff;
      var key := keys[0];
      MemberIsLower(before, key);
      MemberIsLower(after, key);
      PathsExtend(path + [key], Member(before, key), Member(after, key));
      KeyPathsExtend(path, before, after, keys[1..]);
      var first := Diff(path + [key], Member(before, key), Member(after, key));
      var rest := DiffKeys(path, before, after, keys[1..]);
      assert keys == [key] + keys[1..] && key !in keys[1..];
      BothGoThrough(path, key, keys[1..], first, rest);
    }
  }

  /** Groups of changes below different keys stay apart. */
  lemma BothGoThrough(path: seq<string>, key: string, keys: seq<string>, first: seq<Change>, rest: seq<Change>)
    requires forall i | 0 <= i < |first| :: path + [key] <= first[i].path
    requires PrefixFree(first) && PrefixFree(rest) && GoThrough(path, keys, rest) && key !in keys
    ensures GoThrough(path, [key] + keys, first + rest) && PrefixFree(first + rest)
  {
    assert forall i | 0 <= i < |first| :: first[i].path[|path|] == (path + [key])[|path|] == key;
  }

  // ---------- The order of the changes ----------

  /** Text a stands before text b in a dictionary: it ends first, or has the smaller character where they
      first differ. */
  ghost predicate Earlier(a: string, b: string) {
    exists k | 0 <= k < |b| :: k <= |a| && a[..k] == b[..k] && (k == |a| || a[k] < b[k])
  }

  lemma {:induction false} LessIsEarlier(a: string, b: string)
    ensures Less(a, b) <==> Earlier(a, b)
    decreases |a|
  {
    if b == [] {
    } else if a == [] {
      assert a[..0] == b[..0];
    } else {
      LessIsEarlier(a[1..], b[1..]);
      if Less(a, b) {
        if a[0] < b[0] {
          assert a[..0] == b[..0];
        } else {
          var k :| 0 <= k < |b[1..]| && k <= |a[1..]| && a[1..][..k] == b[1..][..k]
                   && (k == |a[1..]| || a[1..][k] < b[1..][k]);
          assert a[..k + 1] == [a[0]] + a[1..][..k] && b[..k + 1] == [b[0]] + b[1..][..k];
        }
      }
      if Earlier(a, b) {
        var k :| 0 <= k < |b| && k <= |a| && a[..k] == b[..k] && (k == |a| || a[k] < b[k]);
        if k > 0 {
          assert a[0] == a[..k][0] == b[..k][0] == b[0];
          assert a[1..][..k - 1] == a[..k][1..] && b[1..][..k - 1] == b[..k][1..];
          assert Earlier(a[1..], b[1..]);
        }
      }
    }
  }

  /** The keys of the two paths part, the first going on with the smaller one. */
  ghost predicate PathBefore(p: seq<string>, q: seq<string>) {
    exists k :: 0 <= k < |p| && k < |q| && p[..k] == q[..k] && Less(p[k], q[k])
  }

  ghost predicate InKeyOrder(changes: seq<Change>) {
    forall i, j | 0 <= i < j < |changes| :: PathBefore(changes[i].path, changes[j].path)
  }

  ghost predicate Ascending(keys: seq<string>) {
    forall i, j | 0 <= i < j < |keys| :: Less(keys[i], keys[j])
  }

  lemma {:induction false} SortedKeysAscend(keys: set<string>)
    ensures Ascending(SortedKeys(keys))
  {
    hide Less;
    if keys == {} {
    } else {
      var first := FirstOf(keys);
      var rest := SortedKeys(keys - {first});
      SortedKeysAscend(keys - {first});
      forall k | k in rest ensures Less(first, k) {
        LessTotal(first, k);
      }
      assert SortedKeys(keys) == [first] + rest;
    }
  }

  lemma {:induction false} DiffIsInOrder(path: seq<string>, before: Value, after: Value)
    ensures InKeyOrder(Diff(path, before, after))
    decreases Height(before) + Height(after), 1, 0
  {
    hide Less, PathBefore;
    if before == after || !before.Object? || !after.Object? {
    } else {
      var keys := SortedKeys(KeysOf(before) + KeysOf(after));
      SortedKeysAscend(KeysOf(before) + KeysOf(after));
      KeysAreInOrder(path, before, after, keys);
    }
  }

  lemma {:induction false} KeysAreInOrder(path: seq<string>, before: Value, after: Value, keys: seq<string>)
    requires before.Object? && after.Object? && Ascending(keys)
    requires forall i, j | 0 <= i < j < |keys| :: keys[i] != keys[j]
    ensures InKeyOrder(DiffKeys(path, before, after, keys))
    decreases Height(before) + Height(after), 0, |keys|
  {
    hide Less, PathBefore, GoThrough, Diff;
    if keys == [] {
    } else {
      var key := keys[0];
      MemberIsLower(before, key);
      MemberIsLower(after, key);
      DiffIsInOrder(path + [key], Member(before, key), Member(after, key));
      PathsExtend(path + [key], Member(before, key), Member(after, key));
      KeysAreInOrder(path, before, after, keys[1..]);
      KeyPathsExtend(path, before, after, keys[1..]);
      BothInOrder(path, key, keys[1..], Diff(path + [key], Member(before, key), Member(after, key)),
                  DiffKeys(path, before, after, keys[1..]));
    }
  }

  lemma BothInOrder(path: seq<string>, key: string, keys: seq<string>, first: seq<Change>, rest: seq<Change>)
    requires InKeyOrder(first) && InKeyOrder(rest) && GoThrough(path, keys, rest)
    requires forall i | 0 <= i < |first| :: path + [key] <= first[i].path
    requires forall k | k in keys :: Less(key, k)
    ensures InKeyOrder(first + rest)
  {
    hide Less;
    forall i, j | 0 <= i < |first| && 0 <= j < |rest| ensures PathBefore(first[i].path, rest[j].path) {
      var p, q := first[i].path, rest[j].path;
      assert p[..|path|] == (path + [key])[..|path|] == path == q[..|path|];
      assert p[|path|] == (path + [key])[|path|] == key && q[|path|] in keys;
    }
  }

  /** The changes come in the order of their keys: where the paths of two of them part, the earlier one goes
      on with the key a dictionary lists first. */
  lemma ChangesAreInKeyOrder(before: Value, after: Value, i: nat, j: nat)
    requires i < j < |Diff([], before, after)|
    ensures var (p, q) := (Diff([], before, after)[i].path, Diff([], before, after)[j].path);
            exists k :: 0 <= k < |p| && k < |q| && p[..k] == q[..k] && Earlier(p[k], q[k])
  {
    hide Less, Earlier, Diff;
    DiffIsInOrder([], before, after);
    var (p, q) := (Diff([], before, after)[i].path, Diff([], before, after)[j].path);
    assert PathBefore(p, q);
    var k :| 0 <= k < |p| && k < |q| && p[..k] == q[..k] && Less(p[k], q[k]);
    LessIsEarlier(p[k], q[k]);
  }

  // ---------- Rendered paths ----------

  /** The text of a path: each key after a slash, and a lone slash for the root. */
  function Render(path: seq<string>): string {
    if path == [] then "/" else Below(path)
  }

  function Below(path: seq<string>): string {
    if path == [] then "" else "/" + path[0] + Below(path[1..])
  }

  /** The pieces of a key between its slashes. */
  function Cut(key: string): (r: seq<string>)
    ensures r != [] && forall k | k in r :: '/' !in k
  {
    if key == "" then [""]
    else if key[0] == '/' then [""] + Cut(key[1..])
    else
      var rest := Cut(key[1..]);
      [[key[0]] + rest[0]] + rest[1..]
  }

  function CutAll(path: seq<string>): (r: seq<string>)
    ensures path != [] ==> r != []
    ensures forall k | k in r :: '/' !in k
  {
    if path == [] then [] else Cut(path[0]) + CutAll(path[1..])
  }

  /** The steps a rendered path seems to take: keys come apart at their slashes, and the root is an
      empty key. */
  function Places(path: seq<string>): seq<string> {
    if path == [] then [""] else CutAll(path)
  }

  lemma {:induction false} BelowOfConcat(a: seq<string>, b: seq<string>)
    ensures Below(a + b) == Below(a) + Below(b)
  {
    if a == [] {
      assert a + b == b;
    } else {
      BelowOfConcat(a[1..], b);
      assert (a + b)[0] == a[0] && (a + b)[1..] == a[1..] + b;
    }
  }

  lemma BelowOfFirst(key: string, rest: seq<string>)
    ensures Below([key] + rest) == "/" + (key + Below(rest))
  {
    assert ([key] + rest)[1..] == rest;
  }

  /** The first piece follows the slash in front of the key, the others the slashes in it. */
  lemma {:induction false} BelowOfCut(key: string)
    ensures Below(Cut(key)) == "/" + key
  {
    hide Below;
    if key == "" {
      NothingBelow();
      BelowOfFirst("", []);
      assert [""] + [] == [""];
    } else {
      var rest := Cut(key[1..]);
      BelowOfCut(key[1..]);
      assert key == [key[0]] + key[1..];
      if key[0] == '/' {
        BelowOfFirst("", rest);
        assert "" + Below(rest) == Below(rest) == key;
      } else {
        FirstLetter([key[0]], rest, key[1..]);
      }
    }
  }

  lemma NothingBelow()
    ensures Below([]) == ""
  {
  }

  /** Letters in front of the first piece. */
  lemma FirstLetter(letters: string, pieces: seq<string>, text: string)
    requires pieces != [] && Below(pieces) == "/" + text
    ensures Below([letters + pieces[0]] + pieces[1..]) == "/" + (letters + text)
  {
    hide Below;
    var more := Below(pieces[1..]);
    BelowOfFirst(letters + pieces[0], pieces[1..]);
    BelowOfFirst(pieces[0], pieces[1..]);
    assert pieces == [pieces[0]] + pieces[1..];
    Behind("/", pieces[0] + more, text);
    assert letters + pieces[0] + more == letters + (pieces[0] + more);
  }

  lemma Behind(x: string, a: string, b: string)
    requires x + a == x + b
    ensures a == b
  {
    assert (x + a)[|x|..] == a && (x + b)[|x|..] == b;
  }

  lemma {:induction false} BelowOfCutAll(path: seq<string>)
    ensures Below(CutAll(path)) == Below(path)
  {
    if path == [] {
    } else {
      BelowOfCutAll(path[1..]);
      BelowOfCut(path[0]);
      BelowOfConcat(Cut(path[0]), CutAll(path[1..]));
    }
  }

  lemma RenderOfPlaces(path: seq<string>)
    ensures Render(path) == Below(Places(path))
  {
    BelowOfCutAll(path);
    assert Below([""]) == "/" + "" + "" == "/";
  }

  predicate SlashFree(path: seq<string>) {
    forall k | k in path :: '/' !in k
  }

  lemma BelowStarts(path: seq<string>)
    ensures Below(path) == "" <==> path == []
    ensures path != [] ==> Below(path)[0] == '/'
  {
  }

  lemma {:induction false} BelowIsInjective(a: seq<string>, b: seq<string>)
    requires SlashFree(a) && SlashFree(b) && Below(a) == Below(b)
    ensures a == b
    decreases |a|
  {
    BelowStarts(a);
    BelowStarts(b);
    if a == [] {
    } else {
      BelowStarts(a[1..]);
      BelowStarts(b[1..]);
      assert a[0] + Below(a[1..]) == Below(a)[1..] == Below(b)[1..] == b[0] + Below(b[1..]);
      assert a[0] in a && b[0] in b;
      FirstKeysEqual(a[0], b[0], Below(a[1..]), Below(b[1..]));
      BelowIsInjective(a[1..], b[1..]);
      assert a == [a[0]] + a[1..] && b == [b[0]] + b[1..];
    }
  }

  lemma FirstKeysEqual(x: string, y: string, s: string, t: string)
    requires '/' !in x && '/' !in y && x + s == y + t
    requires (s == "" || s[0] == '/') && (t == "" || t[0] == '/')
    ensures x == y && s == t
  {
    var whole := x + s;
    assert whole[..|x|] == x && whole[|x|..] == s;
    assert whole == y + t && whole[..|y|] == y && whole[|y|..] == t;
    assert forall i | 0 <= i < |x| :: whole[i] == x[i];
    assert forall i | 0 <= i < |y| :: whole[i] == y[i];
  }

  /** Keys are not escaped: two paths have the same text exactly when they fall into the same
      places once their keys are cut at the slashes. */
  lemma RenderedAlikeExactlyWhen(a: seq<string>, b: seq<string>)
    ensures Render(a) == Render(b) <==> Places(a) == Places(b)
  {
    hide Below, CutAll;
    RenderOfPlaces(a);
    RenderOfPlaces(b);
    if Render(a) == Render(b) {
      BelowIsInjective(Places(a), Places(b));
    }
  }

  predicate Plain(key: string) {
    key != "" && '/' !in key
  }

  lemma {:induction false} CutOfSlashFree(key: string)
    requires '/' !in key
    ensures Cut(key) == [key]
  {
    if key == "" {
    } else {
      CutOfSlashFree(key[1..]);
      assert key == [key[0]] + key[1..];
    }
  }

  lemma {:induction false} CutAllOfSlashFree(path: seq<string>)
    requires SlashFree(path)
    ensures CutAll(path) == path
  {
    if path == [] {
    } else {
      assert path[0] in path;
      CutOfSlashFree(path[0]);
      CutAllOfSlashFree(path[1..]);
      assert path == [path[0]] + path[1..];
    }
  }

  /** So the text names the place when every key is non-empty and free of slashes. */
  lemma RenderIsFaithful(a: seq<string>, b: seq<string>)
    requires forall k | k in a + b :: Plain(k)
    requires Render(a) == Render(b)
    ensures a == b
  {
    assert forall k | k in a :: k in a + b;
    assert forall k | k in b :: k in a + b;
    assert (a != [] ==> a[0] in a) && (b != [] ==> b[0] in b);
    CutAllOfSlashFree(a);
    CutAllOfSlashFree(b);
    RenderedAlikeExactlyWhen(a, b);
  }

  // ---------- The emitted entries ----------

  /** No two entries carry the same path text. */
  ghost predicate TextsDiffer(changes: seq<Change>) {
    forall i, j | 0 <= i < j < |changes| :: Render(changes[i].path) != Render(changes[j].path)
  }

  ghost predicate PlacesDiffer(changes: seq<Change>) {
    forall i, j | 0 <= i < j < |changes| :: Places(changes[i].path) != Places(changes[j].path)
  }

  /** The texts in a difference tell its entries apart exactly when their places do. */
  lemma EntriesAreToldApartExactlyWhen(changes: seq<Change>)
    ensures TextsDiffer(changes) <==> PlacesDiffer(changes)
  {
    forall i, j | 0 <= i < j < |changes|
      ensures Render(changes[i].path) == Render(changes[j].path)
              <==> Places(changes[i].path) == Places(changes[j].path)
    {
      RenderedAlikeExactlyWhen(changes[i].path, changes[j].path);
    }
  }

  /** Every key of an object reached through objects is plain. */
  ghost predicate PlainKeys(v: Value)
    decreases Height(v)
  {
    v.Object? ==> forall k | k in v.fields :: Height(v.fields[k]) < Height(v) && Plain(k) && PlainKeys(v.fields[k])
  }

  lemma {:induction false} PlainPaths(path: seq<string>, before: Value, after: Value, c: Change)
    requires PlainKeys(before) && PlainKeys(after) && (forall k | k in path :: Plain(k))
    requires c in Diff(path, before, after)
    ensures forall k | k in c.path :: Plain(k)
    decreases Height(before) + Height(after), 1, 0
  {
    if before.Object? && after.Object? {
      PlainKeyPaths(path, before, after, SortedKeys(KeysOf(before) + KeysOf(after)), c);
    } else {
      assert Diff(path, before, after) == [Change(path, before, after)];
    }
  }

  lemma {:induction false} PlainKeyPaths(path: seq<string>, before: Value, after: Value, keys: seq<string>, c: Change)
    requires before.Object? && after.Object?
    requires PlainKeys(before) && PlainKeys(after) && (forall k | k in path :: Plain(k))
    requires forall k | k in keys :: k in before.fields || k in after.fields
    requires c in DiffKeys(path, before, after, keys)
    ensures forall k | k in c.path :: Plain(k)
    decreases Height(before) + Height(after), 0, |keys|
  {
    var key := keys[0];
    MemberIsLower(before, key);
    MemberIsLower(after, key);
    if c in Diff(path + [key], Member(before, key), Member(after, key)) {
      assert key in keys;
      assert Plain(key);
      PlainPaths(path + [key], Member(before, key), Member(after, key), c);
    } else {
      PlainKeyPaths(path, before, after, keys[1..], c);
    }
  }

  /** A difference of values with plain keys never repeats a path text. */
  lemma PlainKeysAreToldApart(before: Value, after: Value)
    requires PlainKeys(before) && PlainKeys(after)
    ensures TextsDiffer(Diff([], before, after))
  {
    var changes := Diff([], before, after);
    PathsExtend([], before, after);
    forall i, j | 0 <= i < j < |changes| ensures Render(changes[i].path) != Render(changes[j].path) {
      PlainPaths([], before, after, changes[i]);
      PlainPaths([], before, after, changes[j]);
      if Render(changes[i].path) == Render(changes[j].path) {
        RenderIsFaithful(changes[i].path, changes[j].path);
      }
    }
  }

  // ---------- A repeated text ----------

  function Inner(n: Value): Value {
    Object(map["b" := n])
  }

  function Outer(a: string, b: string, n: Value): Value {
    Object(map[a := Inner(n), b := n])
  }

  lemma OneKey(path: seq<string>, before: Value, after: Value, key: string)
    requires before.Object? && after.Object?
    ensures DiffKeys(path, before, after, SortedKeys({key}))
         == Diff(path + [key], Member(before, key), Member(after, key))
  {
    hide Diff, SortedKeys, Member;
    LessTotal(key, key);
    FirstGroup(path, before, after, {key}, key);
    assert {key} - {key} == {};
    DiffUnfolds(path, before, after);
  }

  lemma TwoKeys(path: seq<string>, before: Value, after: Value, a: string, b: string)
    requires before.Object? && after.Object? && a != b && IsFirst({a, b}, a)
    ensures DiffKeys(path, before, after, SortedKeys({a, b}))
         == Diff(path + [a], Member(before, a), Member(after, a))
            + Diff(path + [b], Member(before, b), Member(after, b))
  {
    hide Diff, DiffKeys, SortedKeys, Member, IsFirst;
    FirstGroup(path, before, after, {a, b}, a);
    assert {a, b} - {a} == {b};
    OneKey(path, before, after, b);
  }

  lemma InnerDiff(path: seq<string>, x: Value, y: Value)
    requires !x.Object? && x != y
    ensures Diff(path, Inner(x), Inner(y)) == [Change(path + ["b"], x, y)]
  {
    hide DiffKeys, SortedKeys;
    OneKey(path, Inner(x), Inner(y), "b");
    DiffUnfolds(path, Inner(x), Inner(y));
    assert Inner(x).fields.Keys + Inner(y).fields.Keys == {"b"};
    assert Inner(x) != Inner(y) by { assert Inner(x).fields["b"] == x && Inner(y).fields["b"] == y; }
  }

  lemma OuterDiff(a: string, b: string, x: Value, y: Value)
    requires !x.Object? && x != y && a != b && IsFirst({a, b}, a)
    ensures Diff([], Outer(a, b, x), Outer(a, b, y)) == Diff([a], Inner(x), Inner(y)) + [Change([b], x, y)]
  {
    hide DiffKeys, SortedKeys, IsFirst;
    var before, after := Outer(a, b, x), Outer(a, b, y);
    assert before.fields.Keys + after.fields.Keys == {a, b};
    assert before != after by { assert before.fields[b] == x && after.fields[b] == y; }
    TwoKeys([], before, after, a, b);
    DiffUnfolds([], before, after);
    DiffUnfolds([b], x, y);
    assert [] + [a] == [a] && [] + [b] == [b];
  }

  /** {"a/b": 1, "a": {"b": 1}} and {"a/b": 2, "a": {"b": 2}} differ in two places that carry the
      same path text. */
  lemma TwoPlacesOneText()
    ensures var before, after := Outer("a", "a/b", Number("1")), Outer("a", "a/b", Number("2"));
            && Diff([], before, after) == [Change(["a", "b"], Number("1"), Number("2")),
                                           Change(["a/b"], Number("1"), Number("2"))]
            && Render(["a", "b"]) == Render(["a/b"]) == "/a/b"
            && !TextsDiffer(Diff([], before, after))
  {
    hide Diff, Render, IsFirst, Outer, Inner;
    var x, y := Number("1"), Number("2");
    assert x != y;
    FirstOfTwo();
    assert |"a"| != |"a/b"|;
    OuterDiff("a", "a/b", x, y);
    InnerDiff(["a"], x, y);
    assert ["a"] + ["b"] == ["a", "b"];
    RenderIsAmbiguous();
    var changes := [Change(["a", "b"], x, y)] + [Change(["a/b"], x, y)];
    assert Diff([], Outer("a", "a/b", x), Outer("a", "a/b", y)) == changes;
    assert Render(changes[0].path) == Render(changes[1].path);
  }

  lemma FirstOfTwo()
    ensures IsFirst({"a", "a/b"}, "a")
  {
    LessTotal("a", "a");
    assert !Less("a/b", "a") by { assert "a/b"[1..] == "/b" && "a"[1..] == ""; }
  }

  /** Nor is the root told apart from an empty key. */
  lemma RenderIsAmbiguous()
    ensures Render(["a/b"]) == Render(["a", "b"]) == "/a/b" && Render([""]) == Render([]) == "/"
  {
    hide Below;
    NothingBelow();
    BelowOfFirst("b", []);
    BelowOfFirst("a", ["b"]);
    BelowOfFirst("a/b", []);
    BelowOfFirst("", []);
    assert ["b"] + [] == ["b"] && ["a"] + ["b"] == ["a", "b"] && ["a/b"] + [] == ["a/b"] && [""] + [] == [""];
    assert "/" + ("a" + ("/" + ("b" + ""))) == "/a/b" && "/" + ("a/b" + "") == "/a/b" && "/" + ("" + "") == "/";
  }
}
