/** The leakage-free split of a labelled image set into train, val and test. */
module Split {
  import opened Sums

  type Cls = int
  type Key = int

  /** An image of a session; the session is the physical object photographed. */
  datatype Item = Item(path: int, cls: Cls, key: Key)

  /** The images of one session. */
  datatype Group = Group(images: seq<Item>)

  /** A group counts for the class of its first image. */
  function ClassOf(g: Group): Cls {
    if g.images == [] then 0 else g.images[0].cls
  }

  function Flatten(groups: seq<Group>): seq<Item> {
    if groups == [] then [] else Flatten(groups[..|groups| - 1]) + groups[|groups| - 1].images
  }

  lemma {:induction false} FlattenConcat(a: seq<Group>, b: seq<Group>)
    ensures Flatten(a + b) == Flatten(a) + Flatten(b)
  {
    if b == [] {
      assert a + b == a;
    } else {
      assert (a + b)[..|a + b| - 1] == a + b[..|b| - 1];
      FlattenConcat(a, b[..|b| - 1]);
    }
  }

  // ---- grouping by session -------------------------------------------------

  /** The images of a session, in order. */
  function WithKey(items: seq<Item>, k: Key): seq<Item> {
    if items == [] then []
    else
      WithKey(items[..|items| - 1], k) + (if items[|items| - 1].key == k then [items[|items| - 1]] else [])
  }

  /** The sessions in order of first appearance. */
  function Keys(items: seq<Item>): seq<Key> {
    if items == [] then []
    else
      var keys := Keys(items[..|items| - 1]);
      if items[|items| - 1].key in keys then keys else keys + [items[|items| - 1].key]
  }

  function Sessions(items: seq<Item>): (groups: seq<Group>)
    ensures |groups| == |Keys(items)|
    ensures forall i :: 0 <= i < |groups| ==> groups[i] == Group(WithKey(items, Keys(items)[i]))
  {
    seq(|Keys(items)|, i requires 0 <= i < |Keys(items)| => Group(WithKey(items, Keys(items)[i])))
  }

  lemma {:induction false} KeysAreDistinct(items: seq<Item>)
    ensures forall i, j :: 0 <= i < j < |Keys(items)| ==> Keys(items)[i] != Keys(items)[j]
    ensures forall k :: k in Keys(items) <==> WithKey(items, k) != []
    ensures forall x :: x in items ==> x.key in Keys(items)
  {
    if items != [] {
      KeysAreDistinct(items[..|items| - 1]);
    }
  }

  lemma {:induction false} SessionIsOneObject(items: seq<Item>, k: Key)
    ensures forall x :: x in WithKey(items, k) <==> x in items && x.key == k
  {
    if items != [] {
      SessionIsOneObject(items[..|items| - 1], k);
    }
  }

  lemma {:induction false} FirstWithKey(items: seq<Item>, k: Key) returns (j: nat)
    requires WithKey(items, k) != []
    ensures j < |items| && items[j] == WithKey(items, k)[0] && items[j].key == k
    ensures forall l :: 0 <= l < j ==> items[l].key != k
  {
    var rest := items[..|items| - 1];
    if WithKey(rest, k) != [] {
      j := FirstWithKey(rest, k);
    } else {
      j := |rest|;
      forall l | 0 <= l < j ensures items[l].key != k {
        SessionIsOneObject(rest, k);
        assert items[l] == rest[l];
        assert rest[l] !in WithKey(rest, k);
      }
    }
  }

  /** A session counts for the class of its earliest image. */
  lemma EarliestImageDecides(items: seq<Item>, i: nat) returns (j: nat)
    requires i < |Sessions(items)|
    ensures j < |items| && items[j] in Sessions(items)[i].images && ClassOf(Sessions(items)[i]) == items[j].cls
    ensures forall l :: 0 <= l < j ==> items[l].key != items[j].key
  {
    KeysAreDistinct(items);
    assert Keys(items)[i] in Keys(items);
    j := FirstWithKey(items, Keys(items)[i]);
  }

  /** Grouping as the code does it: a dictionary from session to its images so far. */
  method GroupBySession(items: seq<Item>) returns (groups: seq<Group>)
    ensures groups == Sessions(items)
  {
    var table: map<Key, seq<Item>>, order: seq<Key> := map[], [];
    var i := 0;
    while i < |items|
      invariant i <= |items|
      invariant order == Keys(items[..i])
      invariant forall k :: k in table <==> k in order
      invariant forall k :: k in table ==> table[k] == WithKey(items[..i], k)
    {
      var x := items[i];
      assert items[..i + 1][..i] == items[..i];
      KeysAreDistinct(items[..i]);
      if x.key in table {
        table := table[x.key := table[x.key] + [x]];
      } else {
        table := table[x.key := [x]];
        order := order + [x.key];
      }
      i := i + 1;
    }
    assert items[..i] == items;
    assert forall j :: 0 <= j < |order| ==> order[j] in order;
    groups := seq(|order|, j requires 0 <= j < |order| => Group(if order[j] in table then table[order[j]] else []));
  }

  // ---- grouping loses nothing ----------------------------------------------

  /** The images of some sessions. */
  function Gather(items: seq<Item>, keys: seq<Key>): multiset<Item> {
    if keys == [] then multiset{}
    else Gather(items, keys[..|keys| - 1]) + multiset(WithKey(items, keys[|keys| - 1]))
  }

  lemma {:induction false} FlattenIsGather(items: seq<Item>, keys: seq<Key>, groups: seq<Group>)
    requires |groups| == |keys| && forall i :: 0 <= i < |keys| ==> groups[i] == Group(WithKey(items, keys[i]))
    ensures multiset(Flatten(groups)) == Gather(items, keys)
  {
    if keys != [] {
      FlattenIsGather(items, keys[..|keys| - 1], groups[..|groups| - 1]);
      Joined(Flatten(groups[..|groups| - 1]), WithKey(items, keys[|keys| - 1]));
    }
  }

  ghost predicate Distinct<T(!new)>(s: seq<T>) {
    forall i, j :: 0 <= i < j < |s| ==> s[i] != s[j]
  }

  /** One more image lands in the one session it belongs to. */
  lemma {:induction false} GatherOneMore(items: seq<Item>, x: Item, keys: seq<Key>)
    requires Distinct(keys)
    ensures Gather(items + [x], keys) == Gather(items, keys) + One(x.key in keys, x)
  {
    if keys != [] {
      var rest, k := keys[..|keys| - 1], keys[|keys| - 1];
      InLast(keys, x.key);
      GatherOneMore(items, x, rest);
      WithKeyOneMore(items, x, k);
      OneOfTwo(Gather(items, rest), x.key in rest, multiset(WithKey(items, k)), x.key == k, x);
    }
  }

  function One<T>(here: bool, x: T): multiset<T> {
    if here then multiset{x} else multiset{}
  }

  /** One more element in one of two bags. */
  lemma OneOfTwo<T>(a: multiset<T>, p: bool, b: multiset<T>, q: bool, x: T)
    requires !(p && q)
    ensures (a + One(p, x)) + (b + One(q, x)) == (a + b) + One(p || q, x)
  {
  }

  lemma InLast<T(!new)>(s: seq<T>, x: T)
    requires Distinct(s) && s != []
    ensures var rest, last := s[..|s| - 1], s[|s| - 1];
            && Distinct(rest) && (x in s <==> x in rest || x == last) && !(x in rest && x == last)
  {
    assert s == s[..|s| - 1] + [s[|s| - 1]];
  }

  lemma Joined<T>(a: seq<T>, b: seq<T>)
    ensures multiset(a + b) == multiset(a) + multiset(b)
  {
  }

  lemma WithKeyOneMore(items: seq<Item>, x: Item, k: Key)
    ensures multiset(WithKey(items + [x], k)) == multiset(WithKey(items, k)) + One(x.key == k, x)
  {
    assert (items + [x])[..|items|] == items;
  }

  lemma {:induction false} GatherKeepsImages(items: seq<Item>)
    ensures Gather(items, Keys(items)) == multiset(items)
  {
    if items != [] {
      var rest, x := items[..|items| - 1], items[|items| - 1];
      assert items == rest + [x];
      GatherKeepsImages(rest);
      Regrouped(rest, x);
      Joined(rest, [x]);
    }
  }

  lemma GroupingKeepsImages(items: seq<Item>)
    ensures multiset(Flatten(Sessions(items))) == multiset(items)
  {
    FlattenIsGather(items, Keys(items), Sessions(items));
    GatherKeepsImages(items);
  }

  lemma Regrouped(rest: seq<Item>, x: Item)
    ensures Gather(rest + [x], Keys(rest + [x])) == Gather(rest, Keys(rest)) + multiset{x}
  {
    KeysAreDistinct(rest + [x]);
    GatherOneMore(rest, x, Keys(rest + [x]));
    GatherOldKeys(rest, x);
  }

  /** A new session has no earlier images. */
  lemma GatherOldKeys(rest: seq<Item>, x: Item)
    ensures x.key in Keys(rest + [x])
    ensures Gather(rest, Keys(rest + [x])) == Gather(rest, Keys(rest))
  {
    assert (rest + [x])[..|rest|] == rest;
    KeysAreDistinct(rest);
    if x.key !in Keys(rest) {
      assert Keys(rest + [x])[..|Keys(rest)|] == Keys(rest);
      assert WithKey(rest, x.key) == [];
    }
  }

  /** Rearranging whole sessions rearranges images. */
  lemma {:induction false} PermutedGroups(a: seq<Group>, b: seq<Group>)
    requires multiset(a) == multiset(b)
    ensures multiset(Flatten(a)) == multiset(Flatten(b))
  {
    if b == [] {
      assert |multiset(a)| == 0;
    } else {
      var g := b[|b| - 1];
      assert b == b[..|b| - 1] + [g];
      Joined(b[..|b| - 1], [g]);
      assert g in multiset(b);
      assert g in a;
      var i :| 0 <= i < |a| && a[i] == g;
      RemoveOne(a, i);
      BagCancel(multiset(a[..i] + a[i + 1..]), multiset(b[..|b| - 1]), multiset{g});
      PermutedGroups(a[..i] + a[i + 1..], b[..|b| - 1]);
      assert a[..i] + [g] + a[i + 1..] == a;
      FlattenWithout(a[..i], g, a[i + 1..]);
      Joined(Flatten(b[..|b| - 1]), g.images);
    }
  }

  lemma BagCancel<T>(a: multiset<T>, b: multiset<T>, c: multiset<T>)
    requires a + c == b + c
    ensures a == b
  {
    assert a == (a + c) - c;
    assert b == (b + c) - c;
  }

  lemma RemoveOne<T>(a: seq<T>, i: nat)
    requires i < |a|
    ensures multiset(a[..i] + a[i + 1..]) + multiset{a[i]} == multiset(a)
  {
    assert a == a[..i] + ([a[i]] + a[i + 1..]);
  }

  lemma FlattenWithout(a: seq<Group>, g: Group, b: seq<Group>)
    ensures multiset(Flatten(a + [g] + b)) == multiset(Flatten(a + b)) + multiset(g.images)
  {
    FlattenConcat(a + [g], b);
    FlattenConcat(a, b);
    assert (a + [g])[..|a|] == a;
    Joined(Flatten(a) + g.images, Flatten(b));
    Joined(Flatten(a), g.images);
    Joined(Flatten(a), Flatten(b));
  }

  lemma {:induction false} InFlatten(groups: seq<Group>, x: Item) returns (g: Group)
    requires x in Flatten(groups)
    ensures g in groups && x in g.images
  {
    if x in groups[|groups| - 1].images {
      g := groups[|groups| - 1];
    } else {
      g := InFlatten(groups[..|groups| - 1], x);
    }
  }

  lemma {:induction false} DistinctOnce<T(!new)>(s: seq<T>, x: T)
    requires Distinct(s)
    ensures multiset(s)[x] <= 1
  {
    if s != [] {
      DistinctOnce(s[..|s| - 1], x);
      assert s == s[..|s| - 1] + [s[|s| - 1]];
    }
  }

  /** Sessions that are parted never share an object. */
  lemma PartsShareNoSession(items: seq<Item>, a: seq<Group>, b: seq<Group>, rest: multiset<Group>, x: Item, y: Item)
    requires multiset(a) + multiset(b) + rest == multiset(Sessions(items))
    requires x in Flatten(a) && y in Flatten(b)
    ensures x.key != y.key
  {
    var groups := Sessions(items);
    var g := InFlatten(a, x);
    var h := InFlatten(b, y);
    assert g in multiset(a) && h in multiset(b);
    assert g in multiset(groups) && h in multiset(groups);
    assert g in groups && h in groups;
    KeysAreDistinct(items);
    SessionIsOneObject(items, x.key);
    forall i, j | 0 <= i < j < |groups|
      ensures groups[i] != groups[j]
    {
      SessionIsOneObject(items, Keys(items)[i]);
      SessionIsOneObject(items, Keys(items)[j]);
      assert WithKey(items, Keys(items)[i]) != [];
      assert groups[i].images[0] in groups[i].images;
    }
    DistinctOnce(groups, g);
    var i :| 0 <= i < |groups| && groups[i] == g;
    var j :| 0 <= j < |groups| && groups[j] == h;
    SessionIsOneObject(items, Keys(items)[i]);
    SessionIsOneObject(items, Keys(items)[j]);
  }

  // ---- grouping again ------------------------------------------------------

  function KeyOf(g: Group): Key {
    if g.images == [] then 0 else g.images[0].key
  }

  /** Groups of one object each, of different objects. */
  ghost predicate Separate(groups: seq<Group>) {
    && (forall i :: 0 <= i < |groups| ==>
          groups[i].images != [] && forall x :: x in groups[i].images ==> x.key == KeyOf(groups[i]))
    && (forall i, j :: 0 <= i < j < |groups| ==> KeyOf(groups[i]) != KeyOf(groups[j]))
  }

  lemma {:induction false} AppendSession(items: seq<Item>, more: seq<Item>, k: Key)
    requires more != [] && forall x :: x in more ==> x.key == k
    ensures Keys(items + more) == if k in Keys(items) then Keys(items) else Keys(items) + [k]
  {
    var rest := more[..|more| - 1];
    assert (items + more)[..|items + more| - 1] == items + rest;
    if rest == [] {
      assert items + rest == items;
    } else {
      AppendSession(items, rest, k);
    }
  }

  lemma {:induction false} AppendImages(items: seq<Item>, more: seq<Item>, k: Key, j: Key)
    requires forall x :: x in more ==> x.key == k
    ensures WithKey(items + more, j) == WithKey(items, j) + if j == k then more else []
  {
    if more == [] {
      assert items + more == items;
    } else {
      assert (items + more)[..|items + more| - 1] == items + more[..|more| - 1];
      AppendImages(items, more[..|more| - 1], k, j);
    }
  }

  ghost predicate KeepsGroups(items: seq<Item>, groups: seq<Group>) {
    && |Keys(items)| == |groups|
    && (forall i :: 0 <= i < |groups| ==> Keys(items)[i] == KeyOf(groups[i]))
    && (forall i :: 0 <= i < |groups| ==> WithKey(items, KeyOf(groups[i])) == groups[i].images)
  }

  lemma NewKey(items: seq<Item>, rest: seq<Group>, k: Key)
    requires KeepsGroups(items, rest) && forall i :: 0 <= i < |rest| ==> KeyOf(rest[i]) != k
    ensures k !in Keys(items) && WithKey(items, k) == []
  {
    KeysAreDistinct(items);
    assert forall i :: 0 <= i < |Keys(items)| ==> Keys(items)[i] == KeyOf(rest[i]);
  }

  lemma OneGroupMore(items: seq<Item>, rest: seq<Group>, g: Group)
    requires KeepsGroups(items, rest) && g.images != [] && forall x :: x in g.images ==> x.key == KeyOf(g)
    requires forall i :: 0 <= i < |rest| ==> KeyOf(rest[i]) != KeyOf(g)
    ensures KeepsGroups(items + g.images, rest + [g])
  {
    var k, all := KeyOf(g), items + g.images;
    NewKey(items, rest, k);
    AppendSession(items, g.images, k);
    AppendImages(items, g.images, k, k);
    forall i | 0 <= i < |rest| ensures WithKey(all, KeyOf(rest[i])) == rest[i].images {
      AppendImages(items, g.images, k, KeyOf(rest[i]));
    }
  }

  lemma {:induction false} FlattenKeepsGroups(groups: seq<Group>)
    requires Separate(groups)
    ensures KeepsGroups(Flatten(groups), groups)
  {
    if groups != [] {
      var rest := groups[..|groups| - 1];
      FlattenKeepsGroups(rest);
      assert groups == rest + [groups[|groups| - 1]];
      assert forall i :: 0 <= i < |rest| ==> rest[i] == groups[i];
      OneGroupMore(Flatten(rest), rest, groups[|groups| - 1]);
    }
  }

  /** Grouping the images of separate groups gives back the groups. */
  lemma Regroups(groups: seq<Group>)
    requires Separate(groups)
    ensures Sessions(Flatten(groups)) == groups
  {
    FlattenKeepsGroups(groups);
    var again := Sessions(Flatten(groups));
    forall i | 0 <= i < |groups| ensures again[i] == groups[i] {
      assert again[i] == Group(WithKey(Flatten(groups), KeyOf(groups[i])));
    }
  }

  lemma SessionsAreSeparate(items: seq<Item>)
    ensures Separate(Sessions(items))
  {
    var groups := Sessions(items);
    KeysAreDistinct(items);
    forall i | 0 <= i < |groups|
      ensures groups[i].images != [] && KeyOf(groups[i]) == Keys(items)[i]
      ensures forall x :: x in groups[i].images ==> x.key == KeyOf(groups[i])
    {
      SessionIsOneObject(items, Keys(items)[i]);
      assert Keys(items)[i] in Keys(items);
      assert groups[i].images[0] in groups[i].images;
    }
  }

  lemma TwiceInBag<T>(s: seq<T>, i: nat, j: nat)
    requires i < j < |s| && s[i] == s[j]
    ensures multiset(s)[s[i]] >= 2
  {
    assert s == s[..j] + s[j..];
    assert s[i] in s[..j] && s[j] in s[j..];
  }

  lemma PartIsSeparate(items: seq<Item>, part: seq<Group>)
    requires multiset(part) <= multiset(Sessions(items))
    ensures Separate(part)
  {
    var groups := Sessions(items);
    SessionsAreSeparate(items);
    forall i | 0 <= i < |part| ensures part[i] in groups {
      assert part[i] in multiset(part);
    }
    forall i, j | 0 <= i < j < |part| ensures KeyOf(part[i]) != KeyOf(part[j]) {
      var a :| 0 <= a < |groups| && groups[a] == part[i];
      var b :| 0 <= b < |groups| && groups[b] == part[j];
      if a == b {
        TwiceInBag(part, i, j);
        DistinctOnce(groups, part[i]);
      }
    }
  }

  // ---- classes -------------------------------------------------------------

  /** The sessions of a class, in order. */
  function OfClass(groups: seq<Group>, c: Cls): seq<Group> {
    if groups == [] then []
    else
      OfClass(groups[..|groups| - 1], c)
      + (if ClassOf(groups[|groups| - 1]) == c then [groups[|groups| - 1]] else [])
  }

  /** How many sessions of a class there are. */
  function Count(groups: seq<Group>, c: Cls): nat {
    |OfClass(groups, c)|
  }

  lemma {:induction false} OfClassConcat(a: seq<Group>, b: seq<Group>, c: Cls)
    ensures OfClass(a + b, c) == OfClass(a, c) + OfClass(b, c)
  {
    if b == [] {
      assert a + b == a;
    } else {
      assert (a + b)[..|a + b| - 1] == a + b[..|b| - 1];
      OfClassConcat(a, b[..|b| - 1], c);
    }
  }

  lemma CountConcat(a: seq<Group>, b: seq<Group>, c: Cls)
    ensures Count(a + b, c) == Count(a, c) + Count(b, c)
  {
    OfClassConcat(a, b, c);
  }

  lemma {:induction false} CountUniform(groups: seq<Group>, c: Cls, d: Cls)
    requires forall i :: 0 <= i < |groups| ==> ClassOf(groups[i]) == d
    ensures Count(groups, c) == if c == d then |groups| else 0
  {
    if groups != [] {
      CountUniform(groups[..|groups| - 1], c, d);
    }
  }

  lemma {:induction false} OfClassIsUniform(groups: seq<Group>, c: Cls)
    ensures forall g :: g in OfClass(groups, c) ==> g in groups && ClassOf(g) == c
  {
    if groups != [] {
      OfClassIsUniform(groups[..|groups| - 1], c);
    }
  }

  /** The sessions of a class after a session has been taken out. */
  lemma OfClassRemoved(a: seq<Group>, i: nat, c: Cls)
    requires i < |a|
    ensures OfClass(a, c) == OfClass(a[..i], c) + (if ClassOf(a[i]) == c then [a[i]] else []) + OfClass(a[i + 1..], c)
    ensures OfClass(Without(a, i), c) == OfClass(a[..i], c) + OfClass(a[i + 1..], c)
  {
    assert a == a[..i] + [a[i]] + a[i + 1..];
    assert [a[i]][..0] == [];
    OfClassConcat(a[..i] + [a[i]], a[i + 1..], c);
    OfClassConcat(a[..i], [a[i]], c);
    OfClassConcat(a[..i], a[i + 1..], c);
  }

  lemma AddedOnce<T>(a: multiset<T>, b: multiset<T>, c: multiset<T>, g: multiset<T>)
    ensures (a + g) + b + c == a + b + c + g
    ensures a + (b + g) + c == a + b + c + g
    ensures a + b + (c + g) == a + b + c + g
  {
  }

  lemma AllClassesAppended(a: seq<Group>, g: Group)
    ensures forall c :: OfClass(a + [g], c) == OfClass(a, c) + (if ClassOf(g) == c then [g] else [])
    ensures multiset(a + [g]) == multiset(a) + multiset{g}
  {
    assert (a + [g])[..|a|] == a;
  }

  lemma {:induction false} CountedIsThere(groups: seq<Group>, c: Cls)
    ensures Count(groups, c) > 0 <==> exists i :: 0 <= i < |groups| && ClassOf(groups[i]) == c
  {
    if groups != [] {
      CountedIsThere(groups[..|groups| - 1], c);
    }
  }

  /** The sessions of some classes. */
  function BagOf(groups: seq<Group>, classes: seq<Cls>): multiset<Group> {
    if classes == [] then multiset{}
    else BagOf(groups, classes[..|classes| - 1]) + multiset(OfClass(groups, classes[|classes| - 1]))
  }

  lemma {:induction false} BagOfOneMore(groups: seq<Group>, g: Group, classes: seq<Cls>)
    requires Distinct(classes)
    ensures BagOf(groups + [g], classes)
         == BagOf(groups, classes) + One(ClassOf(g) in classes, g)
  {
    if classes != [] {
      var rest, c := classes[..|classes| - 1], classes[|classes| - 1];
      InLast(classes, ClassOf(g));
      BagOfOneMore(groups, g, rest);
      OfClassOneMore(groups, g, c);
      OneOfTwo(BagOf(groups, rest), ClassOf(g) in rest, multiset(OfClass(groups, c)), ClassOf(g) == c, g);
    }
  }

  lemma OfClassOneMore(groups: seq<Group>, g: Group, c: Cls)
    ensures multiset(OfClass(groups + [g], c))
         == multiset(OfClass(groups, c)) + One(ClassOf(g) == c, g)
  {
    assert (groups + [g])[..|groups|] == groups;
  }

  /** Classes that cover every session divide the sessions. */
  lemma {:induction false} ClassesDivide(groups: seq<Group>, classes: seq<Cls>)
    requires Distinct(classes) && forall g :: g in groups ==> ClassOf(g) in classes
    ensures BagOf(groups, classes) == multiset(groups)
  {
    if groups == [] {
      BagOfNothing(classes);
    } else {
      var rest, g := groups[..|groups| - 1], groups[|groups| - 1];
      assert groups == rest + [g];
      ClassesDivide(rest, classes);
      BagOfOneMore(rest, g, classes);
    }
  }

  lemma {:induction false} BagOfNothing(classes: seq<Cls>)
    ensures BagOf([], classes) == multiset{}
  {
    if classes != [] {
      BagOfNothing(classes[..|classes| - 1]);
    }
  }

  // ---- how many sessions go where ------------------------------------------

  /** To the nearest integer, halves to the even one. */
  function RoundHalfEven(hundredths: nat): nat {
    var q, r := hundredths / 100, hundredths % 100;
    if r < 50 || (r == 50 && q % 2 == 0) then q else q + 1
  }

  /** Sessions of a class of n that go to val, and as many to test. */
  function Share(n: nat): (k: nat)
    ensures n < 3 ==> k == 0
    ensures n >= 3 ==> k >= 1 && 2 * k < n
  {
    if n < 3 then 0
    else
      var k := RoundHalfEven(15 * n);
      if k < 1 then 1 else k
  }

  /** r is the nearest integer to 15 percent of n, the even one when two are as near. */
  predicate Nearest(r: int, n: int) {
    -50 <= 100 * r - 15 * n <= 50 && (100 * r - 15 * n == 50 || 100 * r - 15 * n == -50 ==> r % 2 == 0)
  }

  /** Val and test have the same number of n sessions, 15 percent rounded but at least one. */
  ghost predicate ThreeWays(n: nat, t: Tally) {
    exists r :: Nearest(r, n) && var k := if r < 1 then 1 else r; t.val == k && t.test == k && t.train == n - 2 * k
  }

  /** How many sessions of a class of n the first cut gives to each part. */
  ghost predicate FirstCut(n: nat, t: Tally) {
    if n < 3 then t == Tally(n, 0, 0) else ThreeWays(n, t)
  }

  /** How many of them end up in each part. */
  ghost predicate Divided(n: nat, t: Tally) {
    && (n == 0 ==> t == Tally(0, 0, 0)) && (n == 1 ==> t == Tally(0, 1, 0)) && (n == 2 ==> t == Tally(0, 1, 1))
    && (n >= 3 ==> ThreeWays(n, t))
  }

  lemma Rounds(hundredths: nat, q: nat, rest: nat)
    requires hundredths == 100 * q + rest && rest < 100
    ensures RoundHalfEven(hundredths) == if rest < 50 || (rest == 50 && q % 2 == 0) then q else q + 1
  {
    assert hundredths / 100 == q && hundredths % 100 == rest;
  }

  lemma ShareIsRounded(n: nat) returns (r: int)
    requires n >= 3
    ensures Nearest(r, n) && Share(n) == if r < 1 then 1 else r
  {
    var q, rest := 15 * n / 100, 15 * n % 100;
    Rounds(15 * n, q, rest);
    r := RoundHalfEven(15 * n);
    ToTheNearest(n, q, rest, r);
  }

  lemma ToTheNearest(n: nat, q: nat, rest: nat, r: int)
    requires 15 * n == 100 * q + rest && rest < 100
    requires r == if rest < 50 || (rest == 50 && q % 2 == 0) then q else q + 1
    ensures Nearest(r, n)
  {
    NextParity(q);
  }

  lemma NextParity(q: nat)
    ensures q % 2 == 0 || (q + 1) % 2 == 0
  {
  }

  method Shuffle<T>(s: seq<T>) returns (t: seq<T>)
    ensures multiset(t) == multiset(s) && |t| == |s|
  {
    t := s;
    var i := |t|;
    while i > 1
      invariant 0 <= i <= |t| == |s| && multiset(t) == multiset(s)
    {
      i := i - 1;
      var j :| 0 <= j <= i;
      t := t[i := t[j]][j := t[i]];
    }
  }

  /** The shuffled sessions of some classes, class by class. */
  ghost predicate CutsOf(groups: seq<Group>, order: seq<Cls>, cuts: seq<seq<Group>>) {
    |cuts| <= |order| && forall i :: 0 <= i < |cuts| ==> multiset(cuts[i]) == multiset(OfClass(groups, order[i]))
  }

  /** What they put in train, val and test. */
  function Trains(cuts: seq<seq<Group>>): seq<Group> {
    if cuts == [] then []
    else Trains(cuts[..|cuts| - 1]) + cuts[|cuts| - 1][2 * Share(|cuts[|cuts| - 1]|)..]
  }

  function Vals(cuts: seq<seq<Group>>): seq<Group> {
    if cuts == [] then []
    else Vals(cuts[..|cuts| - 1]) + cuts[|cuts| - 1][..Share(|cuts[|cuts| - 1]|)]
  }

  function Tests(cuts: seq<seq<Group>>): seq<Group> {
    if cuts == [] then []
    else
      var s := cuts[|cuts| - 1];
      Tests(cuts[..|cuts| - 1]) + s[Share(|s|)..2 * Share(|s|)]
  }

  // ---- the three parts -----------------------------------------------------

  /** plastic, metal, paper, other */
  const CLASSES: seq<Cls> := [0, 1, 2, 3]

  datatype Part = Train | Val | Test

  /** Sessions of one class in each part. */
  datatype Tally = Tally(train: nat, val: nat, test: nat)

  function In(part: Part, t: Tally): nat {
    match part
    case Train => t.train
    case Val => t.val
    case Test => t.test
  }

  function OneMore(part: Part, t: Tally): Tally {
    match part
    case Train => t.(train := t.train + 1)
    case Val => t.(val := t.val + 1)
    case Test => t.(test := t.test + 1)
  }

  /** The first cut of a class with n sessions. */
  function Cut(n: nat): Tally {
    Tally(n - 2 * Share(n), Share(n), Share(n))
  }

  /** A part without a class inherits a session of it, from train if it has one,
      otherwise from test. */
  function Inherited(part: Part, t: Tally): Tally {
    if t.train > 0 then OneMore(part, t.(train := t.train - 1))
    else if t.test > 0 then OneMore(part, t.(test := t.test - 1))
    else t
  }

  /** The sessions of one class in each part, in order. */
  datatype Lists = Lists(train: seq<Group>, val: seq<Group>, test: seq<Group>) {
    function Sizes(): Tally {
      Tally(|train|, |val|, |test|)
    }
  }

  function Extended(part: Part, l: Lists, g: Group): Lists {
    match part
    case Train => l.(train := l.train + [g])
    case Val => l.(val := l.val + [g])
    case Test => l.(test := l.test + [g])
  }

  function Without<T>(s: seq<T>, i: nat): seq<T>
    requires i < |s|
  {
    s[..i] + s[i + 1..]
  }

  /** The first of the sessions with the fewest images. */
  ghost predicate FirstSmallest(s: seq<Group>, i: nat) {
    && i < |s|
    && (forall j :: 0 <= j < |s| ==> |s[i].images| <= |s[j].images|)
    && (forall j :: 0 <= j < i ==> |s[i].images| < |s[j].images|)
  }

  /** A part takes over the first smallest session that train has of a class, or that
      test has when train has none; every other session stays where it is. */
  ghost predicate Inherits(part: Part, before: Lists, after: Lists) {
    if before.train != [] then
      exists i: nat :: FirstSmallest(before.train, i)
        && after == Extended(part, before.(train := Without(before.train, i)), before.train[i])
    else if before.test != [] then
      exists i: nat :: FirstSmallest(before.test, i)
        && after == Extended(part, before.(test := Without(before.test, i)), before.test[i])
    else after == before
  }

  /** What taking out the first smallest session of a class leaves of each class. */
  lemma TakesOut(groups: seq<Group>, i: nat, m: Cls)
    requires i < |groups| && ClassOf(groups[i]) == m
    requires forall j :: 0 <= j < |groups| && ClassOf(groups[j]) == m ==> |groups[i].images| <= |groups[j].images|
    requires forall j :: 0 <= j < i && ClassOf(groups[j]) == m ==> |groups[i].images| < |groups[j].images|
    ensures var s := OfClass(groups, m);
            exists k: nat :: FirstSmallest(s, k) && s[k] == groups[i] && OfClass(Without(groups, i), m) == Without(s, k)
    ensures forall c :: c != m ==> OfClass(Without(groups, i), c) == OfClass(groups, c)
  {
    DonorIsSmallest(groups, i, m);
    forall c | c != m ensures OfClass(Without(groups, i), c) == OfClass(groups, c) {
      OfClassRemoved(groups, i, c);
    }
  }

  /** A part takes over a session of a class it lacks; a class it has stays as it is. */
  ghost predicate Supplied(part: Part, lacks: bool, before: Lists, after: Lists) {
    if lacks then Inherits(part, before, after) else after == before
  }

  lemma InheritsTally(part: Part, before: Lists, after: Lists)
    requires Inherits(part, before, after)
    ensures after.Sizes() == Inherited(part, before.Sizes())
  {
  }

  /** The first smallest session of a class among all sessions is that of its list. */
  lemma DonorIsSmallest(groups: seq<Group>, i: nat, c: Cls)
    requires i < |groups| && ClassOf(groups[i]) == c
    requires forall j :: 0 <= j < |groups| && ClassOf(groups[j]) == c ==> |groups[i].images| <= |groups[j].images|
    requires forall j :: 0 <= j < i && ClassOf(groups[j]) == c ==> |groups[i].images| < |groups[j].images|
    ensures var s, k := OfClass(groups, c), |OfClass(groups[..i], c)|;
            FirstSmallest(s, k) && s[k] == groups[i] && OfClass(Without(groups, i), c) == Without(s, k)
  {
    OfClassRemoved(groups, i, c);
    OfClassIsUniform(groups, c);
    OfClassIsUniform(groups[..i], c);
    var s, k := OfClass(groups, c), |OfClass(groups[..i], c)|;
    forall j | 0 <= j < |s| ensures |s[k].images| <= |s[j].images| {
      assert s[j] in groups;
    }
    forall j | 0 <= j < k ensures |s[k].images| < |s[j].images| {
      assert s[j] in OfClass(groups[..i], c);
      assert s[j] in groups[..i];
    }
  }

  function Balanced(part: Part, t: Tally): Tally {
    if In(part, t) == 0 then Inherited(part, t) else t
  }

  /** Cut and balanced, train first: what a known class of n sessions ends up with.
      One session serves val, a second serves test, and train gets the rest. */
  lemma FinalTally(n: nat)
    ensures Balanced(Test, Balanced(Val, Balanced(Train, Cut(n)))) == Final(n)
  {
  }

  /** The shares of the first cut and of the whole split, without their arithmetic. */
  lemma SharesAreRounded(n: nat)
    ensures FirstCut(n, Cut(n)) && Divided(n, Final(n))
  {
    if n >= 3 {
      var r := ShareIsRounded(n);
    }
  }

  function Final(n: nat): Tally {
    if n == 1 then Tally(0, 1, 0) else if n == 2 then Tally(0, 1, 1) else Cut(n)
  }

  /** The index of the first smallest session of a class. */
  method Smallest(groups: seq<Group>, c: Cls) returns (donor: Option<nat>)
    ensures donor.None? <==> Count(groups, c) == 0
    ensures donor.Some? ==> donor.value < |groups| && ClassOf(groups[donor.value]) == c
    ensures donor.Some? ==>
              forall j :: 0 <= j < |groups| && ClassOf(groups[j]) == c ==> |groups[donor.value].images| <= |groups[j].images|
    ensures donor.Some? ==>
              forall j :: 0 <= j < donor.value && ClassOf(groups[j]) == c ==>
                |groups[donor.value].images| < |groups[j].images|
  {
    donor := None;
    var i := 0;
    while i < |groups|
      invariant i <= |groups|
      invariant donor.None? ==> forall j :: 0 <= j < i ==> ClassOf(groups[j]) != c
      invariant donor.Some? ==> donor.value < i && ClassOf(groups[donor.value]) == c
      invariant donor.Some? ==>
                  forall j :: 0 <= j < i && ClassOf(groups[j]) == c ==> |groups[donor.value].images| <= |groups[j].images|
      invariant donor.Some? ==>
                  forall j :: 0 <= j < donor.value && ClassOf(groups[j]) == c ==>
                    |groups[donor.value].images| < |groups[j].images|
    {
      if ClassOf(groups[i]) == c && (donor.None? || |groups[i].images| < |groups[donor.value].images|) {
        donor := Some(i);
      }
      i := i + 1;
    }
    CountedIsThere(groups, c);
  }

  /** The lists the split fills and rebalances in place. */
  class Parts {
    var train: seq<Group>
    var val: seq<Group>
    var test: seq<Group>

    constructor ()
      ensures train == [] && val == [] && test == []
    {
      train, val, test := [], [], [];
    }

    ghost function Bag(): multiset<Group>
      reads this
    {
      multiset(train) + multiset(val) + multiset(test)
    }

    ghost function TallyOf(c: Cls): Tally
      reads this
    {
      Tally(Count(train, c), Count(val, c), Count(test, c))
    }

    ghost function ListsOf(c: Cls): Lists
      reads this
    {
      Lists(OfClass(train, c), OfClass(val, c), OfClass(test, c))
    }

    function Get(part: Part): seq<Group>
      reads this
    {
      match part
      case Train => train
      case Val => val
      case Test => test
    }

    method Append(part: Part, g: Group)
      modifies this
      ensures Bag() == old(Bag()) + multiset{g}
      ensures forall c :: ListsOf(c) == if c == ClassOf(g) then Extended(part, old(ListsOf(c)), g) else old(ListsOf(c))
    {
      AllClassesAppended(Get(part), g);
      AddedOnce(multiset(train), multiset(val), multiset(test), multiset{g});
      match part
      case Train => train := train + [g];
      case Val => val := val + [g];
      case Test => test := test + [g];
    }

    method TakeFromTrain(i: nat) returns (g: Group)
      requires i < |train|
      modifies this
      ensures g == old(train)[i] && val == old(val) && test == old(test)
      ensures train == Without(old(train), i) && Bag() + multiset{g} == old(Bag())
    {
      g := train[i];
      RemoveOne(train, i);
      train := train[..i] + train[i + 1..];
    }

    method TakeFromTest(i: nat) returns (g: Group)
      requires i < |test|
      modifies this
      ensures g == old(test)[i] && val == old(val) && train == old(train)
      ensures test == Without(old(test), i) && Bag() + multiset{g} == old(Bag())
    {
      g := test[i];
      RemoveOne(test, i);
      test := test[..i] + test[i + 1..];
    }

    /** A part that lacks a class inherits its smallest session elsewhere. */
    method Inherit(part: Part, m: Cls)
      modifies this
      ensures Bag() == old(Bag())
      ensures Inherits(part, old(ListsOf(m)), ListsOf(m))
      ensures forall c :: c != m ==> ListsOf(c) == old(ListsOf(c))
      ensures TallyOf(m) == Inherited(part, old(TallyOf(m)))
    {
      ghost var before := ListsOf(m);
      var donor := Smallest(train, m);
      if donor.Some? {
        TakesOut(train, donor.value, m);
        var g := TakeFromTrain(donor.value);
        Append(part, g);
      } else {
        donor := Smallest(test, m);
        if donor.Some? {
          TakesOut(test, donor.value, m);
          var g := TakeFromTest(donor.value);
          Append(part, g);
        }
      }
      InheritsTally(part, before, ListsOf(m));
    }

    method Missing(part: Part) returns (missing: set<Cls>)
      ensures forall c :: c in missing <==> c in CLASSES && In(part, TallyOf(c)) == 0
    {
      var present := set g | g in Get(part) :: ClassOf(g);
      missing := (set c | c in CLASSES) - present;
      forall c ensures In(part, TallyOf(c)) == 0 <==> c !in present {
        CountedIsThere(Get(part), c);
      }
    }

    /** Gives the part every known class it lacks, in any order. */
    method Rebalance(part: Part)
      modifies this
      ensures Bag() == old(Bag())
      ensures forall c :: Supplied(part, c in CLASSES && In(part, old(TallyOf(c))) == 0, old(ListsOf(c)), ListsOf(c))
      ensures forall c :: TallyOf(c) == if c in CLASSES then Balanced(part, old(TallyOf(c))) else old(TallyOf(c))
    {
      var missing := Missing(part);
      ghost var lacking := missing;
      while missing != {}
        invariant missing <= lacking && Bag() == old(Bag())
        invariant forall c :: c in missing || c !in lacking ==> ListsOf(c) == old(ListsOf(c))
        invariant forall c :: c in lacking && c !in missing ==> Inherits(part, old(ListsOf(c)), ListsOf(c))
        decreases missing
      {
        var m := TakeOne(missing);
        Inherit(part, m);
        missing := missing - {m};
      }
      forall c | c in lacking ensures TallyOf(c) == Inherited(part, old(TallyOf(c))) {
        InheritsTally(part, old(ListsOf(c)), ListsOf(c));
      }
    }

    /** The first cut: every class in turn, in shuffled order. */
    method AssignAll(groups: seq<Group>, order: seq<Cls>, lists: seq<seq<Group>>) returns (ghost cuts: seq<seq<Group>>)
      requires train == [] && val == [] && test == []
      requires Tabled(groups, order, lists)
      modifies this
      ensures CutsOf(groups, order, cuts) && |cuts| == |order|
      ensures train == Trains(cuts) && val == Vals(cuts) && test == Tests(cuts)
    {
      cuts := [];
      var i := 0;
      while i < |order|
        invariant |cuts| == i && CutsOf(groups, order, cuts)
        invariant train == Trains(cuts) && val == Vals(cuts) && test == Tests(cuts)
      {
        var s := Shuffle(lists[i]);
        Assign(s);
        NextCut(cuts, s);
        cuts := cuts + [s];
        i := i + 1;
      }
    }

    /** The slices of one shuffled class. */
    method Assign(s: seq<Group>)
      modifies this
      ensures train == old(train) + s[2 * Share(|s|)..] && val == old(val) + s[..Share(|s|)]
      ensures test == old(test) + s[Share(|s|)..2 * Share(|s|)]
    {
      var k := Share(|s|);
      val := val + s[..k];
      test := test + s[k..2 * k];
      train := train + s[2 * k..];
    }

    method Distribute(groups: seq<Group>)
      requires train == [] && val == [] && test == []
      modifies this
      ensures Bag() == multiset(groups)
      ensures forall c :: TallyOf(c) == Cut(Count(groups, c))
    {
      var order, lists := ByClass(groups);
      ghost var cuts := AssignAll(groups, order, lists);
      CutBag(groups, order, cuts);
      ClassesDivide(groups, order);
      forall c ensures TallyOf(c) == Cut(Count(groups, c)) {
        CutTally(groups, order, cuts, c);
        CountedIsThere(groups, c);
      }
    }

    /** The cut, balanced train first. */
    method Fill(groups: seq<Group>)
      requires train == [] && val == [] && test == []
      modifies this
      ensures Bag() == multiset(groups)
      ensures forall c :: c in CLASSES ==> TallyOf(c) == Final(Count(groups, c))
    {
      Distribute(groups);
      Rebalance(Train);
      Rebalance(Val);
      Rebalance(Test);
      forall c ensures Balanced(Test, Balanced(Val, Balanced(Train, Cut(Count(groups, c))))) == Final(Count(groups, c)) {
        FinalTally(Count(groups, c));
      }
    }
  }

  lemma ShuffledUniform(groups: seq<Group>, s: seq<Group>, cls: Cls)
    requires multiset(s) == multiset(OfClass(groups, cls))
    ensures |s| == Count(groups, cls) && forall i :: 0 <= i < |s| ==> ClassOf(s[i]) == cls
  {
    assert |multiset(s)| == |s|;
    assert |multiset(OfClass(groups, cls))| == Count(groups, cls);
    OfClassIsUniform(groups, cls);
    forall i | 0 <= i < |s|
      ensures ClassOf(s[i]) == cls
    {
      assert s[i] in multiset(s);
      assert s[i] in OfClass(groups, cls);
    }
  }

  lemma NextCut(cuts: seq<seq<Group>>, s: seq<Group>)
    ensures Trains(cuts + [s]) == Trains(cuts) + s[2 * Share(|s|)..]
    ensures Vals(cuts + [s]) == Vals(cuts) + s[..Share(|s|)]
    ensures Tests(cuts + [s]) == Tests(cuts) + s[Share(|s|)..2 * Share(|s|)]
  {
    assert (cuts + [s])[..|cuts|] == cuts;
  }

  /** What one class adds to the parts' tallies. */
  lemma CountCut(train: seq<Group>, val: seq<Group>, test: seq<Group>, s: seq<Group>, k: nat, c: Cls, d: Cls)
    requires 2 * k <= |s| && forall i :: 0 <= i < |s| ==> ClassOf(s[i]) == d
    ensures Count(train + s[2 * k..], c) == Count(train, c) + (if c == d then |s| - 2 * k else 0)
    ensures Count(val + s[..k], c) == Count(val, c) + (if c == d then k else 0)
    ensures Count(test + s[k..2 * k], c) == Count(test, c) + (if c == d then k else 0)
  {
    CountExtended(train, s[2 * k..], c, d);
    CountExtended(val, s[..k], c, d);
    CountExtended(test, s[k..2 * k], c, d);
  }

  /** What the last class adds to the parts' tallies. */
  lemma LastCut(cuts: seq<seq<Group>>, s: seq<Group>, c: Cls, d: Cls)
    requires cuts != [] && s == cuts[|cuts| - 1] && forall i :: 0 <= i < |s| ==> ClassOf(s[i]) == d
    ensures var rest, cut := cuts[..|cuts| - 1], Cut(|s|);
            && Count(Trains(cuts), c) == Count(Trains(rest), c) + (if c == d then cut.train else 0)
            && Count(Vals(cuts), c) == Count(Vals(rest), c) + (if c == d then cut.val else 0)
            && Count(Tests(cuts), c) == Count(Tests(rest), c) + (if c == d then cut.test else 0)
  {
    var rest := cuts[..|cuts| - 1];
    CountCut(Trains(rest), Vals(rest), Tests(rest), s, Share(|s|), c, d);
  }

  /** How many sessions of each class the first cut gives to each part. */
  lemma {:induction false} CutTally(groups: seq<Group>, order: seq<Cls>, cuts: seq<seq<Group>>, c: Cls)
    requires Distinct(order) && CutsOf(groups, order, cuts) && |cuts| == |order|
    ensures Tally(Count(Trains(cuts), c), Count(Vals(cuts), c), Count(Tests(cuts), c))
         == if c in order then Cut(Count(groups, c)) else Tally(0, 0, 0)
  {
    if order != [] {
      var n := |order| - 1;
      InLast(order, c);
      CutTally(groups, order[..n], cuts[..n], c);
      ShuffledUniform(groups, cuts[n], order[n]);
      assert c == order[n] ==> |cuts[n]| == Count(groups, c);
      LastCut(cuts, cuts[n], c, order[n]);
    }
  }

  /** The first cut loses no session. */
  lemma {:induction false} CutBag(groups: seq<Group>, order: seq<Cls>, cuts: seq<seq<Group>>)
    requires CutsOf(groups, order, cuts) && |cuts| == |order|
    ensures multiset(Trains(cuts)) + multiset(Vals(cuts)) + multiset(Tests(cuts)) == BagOf(groups, order)
  {
    if order != [] {
      var n := |order| - 1;
      CutBag(groups, order[..n], cuts[..n]);
      CutKeepsAll(Trains(cuts[..n]), Vals(cuts[..n]), Tests(cuts[..n]), cuts[n], Share(|cuts[n]|));
    }
  }

  lemma CutKeepsAll(train: seq<Group>, val: seq<Group>, test: seq<Group>, s: seq<Group>, k: nat)
    requires 2 * k <= |s|
    ensures multiset(train + s[2 * k..]) + multiset(val + s[..k]) + multiset(test + s[k..2 * k])
         == multiset(train) + multiset(val) + multiset(test) + multiset(s)
  {
    assert s == s[..k] + s[k..2 * k] + s[2 * k..];
    Joined(s[..k] + s[k..2 * k], s[2 * k..]);
    Joined(s[..k], s[k..2 * k]);
    Joined(train, s[2 * k..]);
    Joined(val, s[..k]);
    Joined(test, s[k..2 * k]);
  }

  lemma CountExtended(part: seq<Group>, more: seq<Group>, c: Cls, d: Cls)
    requires forall i :: 0 <= i < |more| ==> ClassOf(more[i]) == d
    ensures Count(part + more, c) == Count(part, c) + if c == d then |more| else 0
  {
    CountConcat(part, more, c);
    CountUniform(more, c, d);
  }

  /** A dictionary in insertion order: classes, and beside them their sessions. */
  ghost predicate Tabled(groups: seq<Group>, order: seq<Cls>, lists: seq<seq<Group>>) {
    && Distinct(order) && |lists| == |order|
    && forall i :: 0 <= i < |order| ==> lists[i] == OfClass(groups, order[i])
  }

  ghost predicate Covers(groups: seq<Group>, order: seq<Cls>) {
    forall j :: 0 <= j < |groups| ==> ClassOf(groups[j]) in order
  }

  lemma NewClass(groups: seq<Group>, order: seq<Cls>, lists: seq<seq<Group>>, cls: Cls)
    requires Tabled(groups, order, lists) && Covers(groups, order) && cls !in order
    ensures Tabled(groups, order + [cls], lists + [[]])
  {
    NoneOfClass(groups, order, cls);
  }

  lemma OneMoreSession(groups: seq<Group>, g: Group, order: seq<Cls>, lists: seq<seq<Group>>, k: nat)
    requires Tabled(groups, order, lists) && k < |order| && order[k] == ClassOf(g)
    ensures Tabled(groups + [g], order, lists[k := lists[k] + [g]])
  {
    assert (groups + [g])[..|groups|] == groups;
    forall i | 0 <= i < |order|
      ensures lists[k := lists[k] + [g]][i] == OfClass(groups + [g], order[i])
    {
      assert i != k ==> order[i] != order[k];
    }
  }

  /** Where a class stands in the dictionary; None when it does not. */
  method Find(order: seq<Cls>, cls: Cls) returns (k: Option<nat>)
    ensures k.Some? ==> k.value < |order| && order[k.value] == cls
    ensures k.None? ==> cls !in order
  {
    var i := 0;
    while i < |order|
      invariant i <= |order| && cls !in order[..i]
    {
      if order[i] == cls {
        return Some(i);
      }
      i := i + 1;
    }
    k := None;
  }

  /** The sessions by class: the known classes first, then others as they turn up. */
  method ByClass(groups: seq<Group>) returns (order: seq<Cls>, lists: seq<seq<Group>>)
    ensures Tabled(groups, order, lists) && Covers(groups, order)
  {
    order := CLASSES;
    lists := [[], [], [], []];
    var i := 0;
    while i < |groups|
      invariant i <= |groups| && Tabled(groups[..i], order, lists) && Covers(groups[..i], order)
    {
      var g := groups[i];
      assert groups[..i + 1] == groups[..i] + [g];
      var k := Find(order, ClassOf(g));
      if k.None? {
        NewClass(groups[..i], order, lists, ClassOf(g));
        k := Some(|order|);
        order := order + [ClassOf(g)];
        lists := lists + [[]];
      }
      OneMoreSession(groups[..i], g, order, lists, k.value);
      lists := lists[k.value := lists[k.value] + [g]];
      i := i + 1;
    }
    assert groups[..i] == groups;
  }

  lemma {:induction false} NoneOfClass(groups: seq<Group>, order: seq<Cls>, cls: Cls)
    requires cls !in order && Covers(groups, order)
    ensures OfClass(groups, cls) == []
  {
    if groups != [] {
      NoneOfClass(groups[..|groups| - 1], order, cls);
    }
  }

  // ---- the split -----------------------------------------------------------

  /** A part with sessions of a class has an image labelled with it. */
  lemma ClassIsPresent(items: seq<Item>, part: seq<Group>, c: Cls) returns (x: Item)
    requires multiset(part) <= multiset(Sessions(items)) && Count(part, c) > 0
    ensures x in Flatten(part) && x.cls == c
  {
    CountedIsThere(part, c);
    var i :| 0 <= i < |part| && ClassOf(part[i]) == c;
    assert part[i] in multiset(part);
    assert part[i] in Sessions(items);
    KeysAreDistinct(items);
    x := part[i].images[0];
    FlattenContains(part, i, x);
  }

  lemma {:induction false} FlattenContains(groups: seq<Group>, i: nat, x: Item)
    requires i < |groups| && x in groups[i].images
    ensures x in Flatten(groups)
  {
    if i < |groups| - 1 {
      FlattenContains(groups[..|groups| - 1], i, x);
    }
  }

  /** Two splits share no session. */
  ghost predicate Apart(a: seq<Item>, b: seq<Item>) {
    forall x, y :: x in a && y in b ==> x.key != y.key
  }

  /** The sessions of class c among some images. */
  function SessionsOf(items: seq<Item>, c: Cls): nat {
    Count(Sessions(items), c)
  }

  /** The leakage-free split, for every order the shuffles may produce: the parts are
      the input rearranged, no session straddles two of them, and the sessions of each
      known class are divided as Divided says: one session serves val, a second test,
      and from three on val and test get 15 percent each, rounded, but at least one. */
  method SessionAwareSplit(items: seq<Item>) returns (train: seq<Item>, val: seq<Item>, test: seq<Item>)
    ensures multiset(train) + multiset(val) + multiset(test) == multiset(items)
    ensures Apart(train, val) && Apart(train, test) && Apart(val, test)
    ensures forall c :: c in CLASSES ==>
              Divided(SessionsOf(items, c), Tally(SessionsOf(train, c), SessionsOf(val, c), SessionsOf(test, c)))
    ensures forall c :: c in CLASSES ==>
              var n := SessionsOf(items, c);
              && (n >= 1 ==> exists x :: x in val && x.cls == c)
              && (n >= 2 ==> exists x :: x in test && x.cls == c)
              && (n >= 3 ==> exists x :: x in train && x.cls == c)
  {
    var groups := GroupBySession(items);
    var parts := new Parts();
    parts.Fill(groups);
    train, val, test := Flatten(parts.train), Flatten(parts.val), Flatten(parts.test);
    PartsAreApart(items, parts.train, parts.val, parts.test);
    SplitKeepsImages(items, parts.train, parts.val, parts.test);
    Covered(items, parts.train);
    Covered(items, parts.val);
    Covered(items, parts.test);
    forall c | c in CLASSES
      ensures Divided(SessionsOf(items, c), Tally(SessionsOf(train, c), SessionsOf(val, c), SessionsOf(test, c)))
    {
      SharesAreRounded(SessionsOf(items, c));
    }
  }

  lemma Covered(items: seq<Item>, part: seq<Group>)
    requires multiset(part) <= multiset(Sessions(items))
    ensures Sessions(Flatten(part)) == part
    ensures forall c :: Count(part, c) > 0 ==> exists x :: x in Flatten(part) && x.cls == c
  {
    PartIsSeparate(items, part);
    Regroups(part);
    forall c | Count(part, c) > 0
      ensures exists x :: x in Flatten(part) && x.cls == c
    {
      var x := ClassIsPresent(items, part, c);
    }
  }

  lemma PartsAreApart(items: seq<Item>, a: seq<Group>, b: seq<Group>, c: seq<Group>)
    requires multiset(a) + multiset(b) + multiset(c) == multiset(Sessions(items))
    ensures Apart(Flatten(a), Flatten(b)) && Apart(Flatten(a), Flatten(c)) && Apart(Flatten(b), Flatten(c))
  {
    forall x, y | x in Flatten(a) && y in Flatten(b)
      ensures x.key != y.key
    {
      PartsShareNoSession(items, a, b, multiset(c), x, y);
    }
    forall x, y | x in Flatten(a) && y in Flatten(c)
      ensures x.key != y.key
    {
      PartsShareNoSession(items, a, c, multiset(b), x, y);
    }
    forall x, y | x in Flatten(b) && y in Flatten(c)
      ensures x.key != y.key
    {
      PartsShareNoSession(items, b, c, multiset(a), x, y);
    }
  }

  lemma SplitKeepsImages(items: seq<Item>, a: seq<Group>, b: seq<Group>, c: seq<Group>)
    requires multiset(a) + multiset(b) + multiset(c) == multiset(Sessions(items))
    ensures multiset(Flatten(a)) + multiset(Flatten(b)) + multiset(Flatten(c)) == multiset(items)
  {
    GroupingKeepsImages(items);
    PermutedGroups(a + b + c, Sessions(items));
    FlattenConcat(a + b, c);
    FlattenConcat(a, b);
    Joined(Flatten(a) + Flatten(b), Flatten(c));
    Joined(Flatten(a), Flatten(b));
  }
}
