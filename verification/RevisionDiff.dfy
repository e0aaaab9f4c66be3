/** The comparison of two revisions' tracked entities. */
module RevisionDiff {
  import opened Basics
  import opened Ordering

  datatype Tracked = Tracked(category: Text, id: Text, payloadHash: Text, tag: Option<Text>)

  datatype Kind = Added | Removed | Modified | Unchanged

  datatype Change = Change(category: Text, id: Text, kind: Kind, beforeHash: Option<Text>, afterHash: Option<Text>, tag: Option<Text>)

  datatype Counts = Counts(added: nat, removed: nat, modified: nat, same: nat) {
    function Bump(k: Kind): Counts {
      match k
      case Added => this.(added := added + 1)
      case Removed => this.(removed := removed + 1)
      case Modified => this.(modified := modified + 1)
      case Unchanged => this.(same := same + 1)
    }

    function Of(k: Kind): nat {
      match k
      case Added => added
      case Removed => removed
      case Modified => modified
      case Unchanged => same
    }

    function Sum(): nat {
      added + removed + modified + same
    }
  }

  const NoCounts := Counts(0, 0, 0, 0)

  const NUL: Text := [0]

  /** The string key: category, NUL, id. */
  function KeyOf(category: Text, id: Text): Text {
    category + NUL + id
  }

  /** The last entity filed under each key. */
  function ByKey(es: seq<Tracked>): map<Text, Tracked> {
    if es == [] then map[]
    else var e := es[|es| - 1]; ByKey(es[..|es| - 1])[KeyOf(e.category, e.id) := e]
  }

  function OrElse(a: Option<Text>, b: Option<Text>): Option<Text> {
    if a.Some? then a else b
  }

  function ChangeAt(base: map<Text, Tracked>, head: map<Text, Tracked>, key: Text): Change
    requires key in base || key in head
  {
    if key in base && key in head then
      var b, h := base[key], head[key];
      Change(b.category, b.id, if b.payloadHash == h.payloadHash then Unchanged else Modified,
             Some(b.payloadHash), Some(h.payloadHash), OrElse(h.tag, b.tag))
    else if key in head then
      var h := head[key];
      Change(h.category, h.id, Added, None, Some(h.payloadHash), h.tag)
    else
      var b := base[key];
      Change(b.category, b.id, Removed, Some(b.payloadHash), None, b.tag)
  }

  // ----- The sorted key list -----

  ghost predicate Ascending(keys: seq<Text>) {
    SortedBy(LexLe, keys) && forall i, j :: 0 <= i < j < |keys| ==> keys[i] != keys[j]
  }

  ghost function SortedKeys(s: set<Text>): seq<Text> {
    SortedSet(LexLe, s)
  }

  lemma SortedKeysMeaning(s: set<Text>)
    ensures Ascending(SortedKeys(s))
    ensures forall k :: k in SortedKeys(s) <==> k in s
    ensures |SortedKeys(s)| == |s|
  {
    LexIsTotalOrder();
    SortedSetMeaning(LexLe, s);
  }

  ghost function ChangesOver(base: map<Text, Tracked>, head: map<Text, Tracked>, keys: seq<Text>): (cs: seq<Change>)
    requires forall k :: k in keys ==> k in base || k in head
    ensures |cs| == |keys|
    ensures forall i :: 0 <= i < |keys| ==> cs[i] == ChangeAt(base, head, keys[i])
  {
    seq(|keys|, i requires 0 <= i < |keys| => ChangeAt(base, head, keys[i]))
  }

  ghost function Changes(base: seq<Tracked>, head: seq<Tracked>): seq<Change> {
    var b, h := ByKey(base), ByKey(head);
    SortedKeysMeaning(b.Keys + h.Keys);
    ChangesOver(b, h, SortedKeys(b.Keys + h.Keys))
  }

  /**
   The result's own buckets. A plain object also finds the members it inherits: under such
   a name no bucket is made, and the increment lands on what is inherited.
   */
  function BumpIn(m: map<Text, Counts>, c: Change, inherited: set<Text>): map<Text, Counts> {
    if c.category in inherited then m
    else m[c.category := (if c.category in m then m[c.category] else NoCounts).Bump(c.kind)]
  }

  function Tally(cs: seq<Change>, inherited: set<Text>): map<Text, Counts> {
    if cs == [] then map[] else BumpIn(Tally(cs[..|cs| - 1], inherited), cs[|cs| - 1], inherited)
  }

  method IndexByKey(es: seq<Tracked>) returns (m: map<Text, Tracked>)
    ensures m == ByKey(es)
  {
    m := map[];
    var i := 0;
    while i < |es|
      invariant 0 <= i <= |es|
      invariant m == ByKey(es[..i])
    {
      assert es[..i + 1][..i] == es[..i];
      m := m[KeyOf(es[i].category, es[i].id) := es[i]];
      i := i + 1;
    }
    assert es[..i] == es;
  }

  method CompareKeys(baseMap: map<Text, Tracked>, headMap: map<Text, Tracked>, keys: seq<Text>, inherited: set<Text>)
    returns (changes: seq<Change>, byCategory: map<Text, Counts>)
    requires forall k :: k in keys ==> k in baseMap || k in headMap
    ensures changes == ChangesOver(baseMap, headMap, keys)
    ensures byCategory == Tally(changes, inherited)
  {
    changes, byCategory := [], map[];
    var i := 0;
    while i < |keys|
      invariant 0 <= i <= |keys|
      invariant |changes| == i
      invariant forall j :: 0 <= j < i ==> changes[j] == ChangeAt(baseMap, headMap, keys[j])
      invariant byCategory == Tally(changes, inherited)
    {
      var c := ChangeAt(baseMap, headMap, keys[i]);
      assert (changes + [c])[..|changes|] == changes;
      byCategory := BumpIn(byCategory, c, inherited);
      changes := changes + [c];
      i := i + 1;
    }
  }

  /** `inherited` names the members every object has before it is given any. */
  method DiffRevisions(base: seq<Tracked>, head: seq<Tracked>, inherited: set<Text>)
    returns (changes: seq<Change>, byCategory: map<Text, Counts>)
    ensures changes == Changes(base, head)
    ensures byCategory == Tally(changes, inherited)
  {
    var baseMap := IndexByKey(base);
    var headMap := IndexByKey(head);
    LexIsTotalOrder();
    var keys := ListSorted(LexLe, baseMap.Keys + headMap.Keys);
    SortedKeysMeaning(baseMap.Keys + headMap.Keys);
    changes, byCategory := CompareKeys(baseMap, headMap, keys, inherited);
  }

  // ----- Counts -----

  function CountIn(cs: seq<Change>, category: Text, k: Kind): nat {
    if cs == [] then 0
    else
      var c := cs[|cs| - 1];
      CountIn(cs[..|cs| - 1], category, k) + if c.category == category && c.kind == k then 1 else 0
  }

  /** Each bucket holds the number of changes of each kind in its category; inherited names have none. */
  lemma TallyCounts(cs: seq<Change>, inherited: set<Text>)
    ensures forall cat :: cat in Tally(cs, inherited) <==> cat !in inherited && exists c :: c in cs && c.category == cat
    ensures forall cat, k :: cat in Tally(cs, inherited) ==> Tally(cs, inherited)[cat].Of(k) == CountIn(cs, cat, k)
  {
    hide Tally, CountIn;
    TallyKeys(cs, inherited);
    TallyNumbers(cs, inherited);
  }

  lemma {:induction false} TallyKeys(cs: seq<Change>, inherited: set<Text>)
    ensures forall cat :: cat in Tally(cs, inherited) <==> cat !in inherited && exists c :: c in cs && c.category == cat
  {
    if cs != [] {
      var front, c := cs[..|cs| - 1], cs[|cs| - 1];
      TallyKeys(front, inherited);
      assert cs == front + [c];
      assert Tally(cs, inherited).Keys == Tally(front, inherited).Keys + if c.category in inherited then {} else {c.category};
    }
  }

  lemma {:induction false} TallyNumbers(cs: seq<Change>, inherited: set<Text>)
    ensures forall cat, k :: cat !in inherited ==>
              (if cat in Tally(cs, inherited) then Tally(cs, inherited)[cat].Of(k) else 0) == CountIn(cs, cat, k)
    ensures forall cat :: cat in inherited ==> cat !in Tally(cs, inherited)
  {
    if cs != [] {
      TallyNumbers(cs[..|cs| - 1], inherited);
    }
  }

  ghost function Total(m: map<Text, Counts>): nat {
    if m == map[] then 0
    else var k :| k in m; m[k].Sum() + Total(m - {k})
  }

  lemma {:induction false} TotalSplit(m: map<Text, Counts>, k: Text)
    requires k in m
    ensures Total(m) == m[k].Sum() + Total(m - {k})
    decreases |m|
  {
    var p :| p in m && Total(m) == m[p].Sum() + Total(m - {p});
    if p != k {
      assert |m - {p}| < |m| by {
        assert (m - {p}).Keys == m.Keys - {p};
      }
      TotalSplit(m - {p}, k);
      assert |m - {k}| < |m| by {
        assert (m - {k}).Keys == m.Keys - {k};
      }
      TotalSplit(m - {k}, p);
      assert m - {p} - {k} == m - {k} - {p};
    }
  }

  lemma BumpTotal(m: map<Text, Counts>, c: Change, inherited: set<Text>)
    ensures Total(BumpIn(m, c, inherited)) == Total(m) + if c.category in inherited then 0 else 1
  {
    hide Total;
    if c.category !in inherited {
      var m' := BumpIn(m, c, inherited);
      TotalSplit(m', c.category);
      if c.category in m {
        TotalSplit(m, c.category);
        assert m' - {c.category} == m - {c.category};
      } else {
        assert m' - {c.category} == m;
      }
    }
  }

  ghost predicate NoneInherited(cs: seq<Change>, inherited: set<Text>) {
    forall i :: 0 <= i < |cs| ==> cs[i].category !in inherited
  }

  lemma NothingTallied(inherited: set<Text>)
    ensures Total(map[]) == 0 && NoneInherited([], inherited)
  { }

  lemma {:induction false} TallyTotal(cs: seq<Change>, inherited: set<Text>)
    ensures Total(Tally(cs, inherited)) <= |cs|
    ensures Total(Tally(cs, inherited)) == |cs| <==> NoneInherited(cs, inherited)
  {
    hide BumpIn, Total, NoneInherited;
    if cs == [] {
      NothingTallied(inherited);
    } else {
      var n := |cs| - 1;
      TallyTotal(cs[..n], inherited);
      BumpTotal(Tally(cs[..n], inherited), cs[n], inherited);
      NoneInheritedStep(cs, inherited);
    }
  }

  lemma NoneInheritedStep(cs: seq<Change>, inherited: set<Text>)
    requires cs != []
    ensures var n := |cs| - 1;
            NoneInherited(cs, inherited) <==> NoneInherited(cs[..n], inherited) && cs[n].category !in inherited
  {
    assert forall i :: 0 <= i < |cs| - 1 ==> cs[..|cs| - 1][i] == cs[i];
  }

  /** The buckets together count each key of the two revisions once, if and only if no change is filed under an inherited name. */
  lemma CountsSumToKeysIff(base: seq<Tracked>, head: seq<Tracked>, inherited: set<Text>)
    ensures Total(Tally(Changes(base, head), inherited)) == |ByKey(base).Keys + ByKey(head).Keys|
       <==> NoneInherited(Changes(base, head), inherited)
  {
    SortedKeysMeaning(ByKey(base).Keys + ByKey(head).Keys);
    TallyTotal(Changes(base, head), inherited);
  }

  /** "constructor". */
  const Constructor: Text := [99, 111, 110, 115, 116, 114, 117, 99, 116, 111, 114]

  /** One entity of that category: its change is listed and counted nowhere. */
  lemma ConstructorIsUncounted(inherited: set<Text>, id: Text, payloadHash: Text, tag: Option<Text>)
    requires Constructor in inherited
    ensures var e := Tracked(Constructor, id, payloadHash, tag);
            && Changes([], [e]) == [Change(Constructor, id, Added, None, Some(payloadHash), tag)]
            && Tally(Changes([], [e]), inherited) == map[]
            && |ByKey([]).Keys + ByKey([e]).Keys| == 1
  {
    hide SortedKeys;
    var e := Tracked(Constructor, id, payloadHash, tag);
    var key := KeyOf(Constructor, id);
    SingleEntity(e);
    assert ByKey([]).Keys + ByKey([e]).Keys == {key};
    SortedKeysMeaning({key});
    assert SortedKeys({key})[0] in SortedKeys({key});
    var cs := Changes([], [e]);
    assert cs[..0] == [];
  }

  // ----- The patch law -----

  type Pair = (Text, Text)

  /** The revision's content: the last hash recorded for each category and id. */
  function Hashes(es: seq<Tracked>): map<Pair, Text> {
    if es == [] then map[]
    else var e := es[|es| - 1]; Hashes(es[..|es| - 1])[(e.category, e.id) := e.payloadHash]
  }

  function PatchOne(m: map<Pair, Text>, c: Change): map<Pair, Text> {
    match c.kind
    case Added => if c.afterHash.Some? then m[(c.category, c.id) := c.afterHash.value] else m
    case Modified => if c.afterHash.Some? then m[(c.category, c.id) := c.afterHash.value] else m
    case Removed => m - {(c.category, c.id)}
    case Unchanged => m
  }

  function Patch(m: map<Pair, Text>, cs: seq<Change>): map<Pair, Text> {
    if cs == [] then m else PatchOne(Patch(m, cs[..|cs| - 1]), cs[|cs| - 1])
  }

  /** No category continues another one past a NUL; NUL-free categories never do. */
  ghost predicate Separated(categories: set<Text>) {
    forall c, d :: c in categories && d in categories ==> !(c + NUL <= d)
  }

  ghost predicate Within(es: seq<Tracked>, categories: set<Text>) {
    forall e :: e in es ==> e.category in categories
  }

  ghost predicate PatchLaw(base: seq<Tracked>, head: seq<Tracked>) {
    Patch(Hashes(base), Changes(base, head)) == Hashes(head)
  }

  lemma KeysInjective(categories: set<Text>, c: Text, i: Text, d: Text, j: Text)
    requires Separated(categories) && c in categories && d in categories
    requires KeyOf(c, i) == KeyOf(d, j)
    ensures c == d && i == j
  {
    var k := KeyOf(c, i);
    assert k[..|c|] == c && k[..|d|] == d;
    assert |c| < |d| ==> c + NUL <= d;
    assert |d| < |c| ==> d + NUL <= c;
    assert k[|c| + 1..] == i && k[|d| + 1..] == j;
  }

  lemma {:induction false} ByKeyAgrees(es: seq<Tracked>, categories: set<Text>)
    requires Separated(categories) && Within(es, categories)
    ensures forall k :: k in ByKey(es) ==>
              var e := ByKey(es)[k];
              e.category in categories && k == KeyOf(e.category, e.id) && (e.category, e.id) in Hashes(es)
              && Hashes(es)[(e.category, e.id)] == e.payloadHash
    ensures forall p :: p in Hashes(es) ==> p.0 in categories && KeyOf(p.0, p.1) in ByKey(es)
  {
    if es != [] {
      var front, e := es[..|es| - 1], es[|es| - 1];
      assert es == front + [e];
      ByKeyAgrees(front, categories);
      forall k | k in ByKey(front) && k != KeyOf(e.category, e.id)
        ensures (ByKey(front)[k].category, ByKey(front)[k].id) != (e.category, e.id)
      {
      }
    }
  }

  /** Looking a pair up in a revision's map. */
  ghost function Look(m: map<Pair, Text>, p: Pair): Option<Text> {
    if p in m then Some(m[p]) else None
  }

  lemma KeyEntry(es: seq<Tracked>, categories: set<Text>, k: Text)
    requires Separated(categories) && Within(es, categories) && k in ByKey(es)
    ensures ByKey(es)[k].category in categories && k == KeyOf(ByKey(es)[k].category, ByKey(es)[k].id)
  {
    ByKeyAgrees(es, categories);
  }

  lemma LookEntry(es: seq<Tracked>, categories: set<Text>, p: Pair)
    requires Separated(categories) && Within(es, categories)
    ensures Look(Hashes(es), p)
         == if p.0 in categories && KeyOf(p.0, p.1) in ByKey(es) then Some(ByKey(es)[KeyOf(p.0, p.1)].payloadHash) else None
  {
    ByKeyAgrees(es, categories);
    if p.0 in categories && KeyOf(p.0, p.1) in ByKey(es) {
      var e := ByKey(es)[KeyOf(p.0, p.1)];
      KeysInjective(categories, p.0, p.1, e.category, e.id);
    }
  }

  /** The change listed for a key is about that key, and patches it to the head's hash. */
  lemma ChangeAtPatches(base: seq<Tracked>, head: seq<Tracked>, categories: set<Text>, key: Text, m: map<Pair, Text>)
    requires Separated(categories) && Within(base, categories) && Within(head, categories)
    requires key in ByKey(base) || key in ByKey(head)
    ensures var c := ChangeAt(ByKey(base), ByKey(head), key);
            var own := (c.category, c.id);
            && c.category in categories && KeyOf(c.category, c.id) == key
            && (Look(m, own) == Look(Hashes(base), own) ==> Look(PatchOne(m, c), own) == Look(Hashes(head), own))
            && forall p :: p != own ==> Look(PatchOne(m, c), p) == Look(m, p)
  {
    hide ByKey, Hashes, Separated, Within;
    var c := ChangeAt(ByKey(base), ByKey(head), key);
    if key in ByKey(base) { KeyEntry(base, categories, key); } else { KeyEntry(head, categories, key); }
    LookEntry(base, categories, (c.category, c.id));
    LookEntry(head, categories, (c.category, c.id));
  }

  /** After the first `n` changes exactly the first `n` keys read as in the head. */
  lemma {:induction false} PatchPrefix(base: seq<Tracked>, head: seq<Tracked>, categories: set<Text>, keys: seq<Text>, n: nat, p: Pair)
    requires Separated(categories) && Within(base, categories) && Within(head, categories)
    requires forall i, j :: 0 <= i < j < |keys| ==> keys[i] != keys[j]
    requires forall k :: k in keys ==> k in ByKey(base) || k in ByKey(head)
    requires n <= |keys|
    ensures Look(Patch(Hashes(base), ChangesOver(ByKey(base), ByKey(head), keys)[..n]), p)
         == Look(Hashes(if p.0 in categories && KeyOf(p.0, p.1) in keys[..n] then head else base), p)
  {
    hide ByKey, Hashes, Separated, Within, PatchOne, ChangeAt;
    var all := ChangesOver(ByKey(base), ByKey(head), keys);
    if n > 0 {
      PatchPrefix(base, head, categories, keys, n - 1, p);
      assert all[..n][..n - 1] == all[..n - 1];
      var key := keys[n - 1];
      assert key in keys;
      var c := all[n - 1];
      ChangeAtPatches(base, head, categories, key, Patch(Hashes(base), all[..n - 1]));
      if p == (c.category, c.id) {
        assert key !in keys[..n - 1];
        assert keys[..n][n - 1] == key;
      } else if p.0 in categories {
        if KeyOf(p.0, p.1) == key {
          KeysInjective(categories, p.0, p.1, c.category, c.id);
        }
        assert keys[..n] == keys[..n - 1] + [key];
      }
    }
  }

  lemma EqualByLooks(a: map<Pair, Text>, b: map<Pair, Text>)
    requires forall p :: Look(a, p) == Look(b, p)
    ensures a == b
  {
    forall p ensures p in a <==> p in b {
      assert Look(a, p) == Look(b, p);
    }
    forall p | p in a ensures a[p] == b[p] {
      assert Look(a, p) == Look(b, p);
    }
  }

  lemma PatchedLook(base: seq<Tracked>, head: seq<Tracked>, categories: set<Text>, p: Pair)
    requires Separated(categories) && Within(base, categories) && Within(head, categories)
    ensures Look(Patch(Hashes(base), Changes(base, head)), p) == Look(Hashes(head), p)
  {
    hide ByKey, Hashes, Patch, Separated, Within, SortedKeys, ChangeAt;
    var b, h := ByKey(base), ByKey(head);
    var keys := SortedKeys(b.Keys + h.Keys);
    SortedKeysMeaning(b.Keys + h.Keys);
    var cs := Changes(base, head);
    assert cs[..|keys|] == cs && keys[..|keys|] == keys;
    PatchPrefix(base, head, categories, keys, |keys|, p);
    LookEntry(base, categories, p);
    LookEntry(head, categories, p);
  }

  /** Applying the changes to the base's hashes gives the head's. */
  lemma PatchLawHolds(base: seq<Tracked>, head: seq<Tracked>, categories: set<Text>)
    requires Separated(categories) && Within(base, categories) && Within(head, categories)
    ensures PatchLaw(base, head)
  {
    hide Hashes, Patch, Separated, Within, Changes;
    forall p ensures Look(Patch(Hashes(base), Changes(base, head)), p) == Look(Hashes(head), p) {
      PatchedLook(base, head, categories, p);
    }
    EqualByLooks(Patch(Hashes(base), Changes(base, head)), Hashes(head));
  }

  lemma SingleEntity(e: Tracked)
    ensures ByKey([e]) == map[KeyOf(e.category, e.id) := e]
    ensures Hashes([e]) == map[(e.category, e.id) := e.payloadHash]
  {
    assert [e][..0] == [];
  }

  lemma OneKeyChange(e: Tracked, f: Tracked)
    requires KeyOf(e.category, e.id) == KeyOf(f.category, f.id)
    ensures |Changes([e], [f])| == 1
    ensures var c := Changes([e], [f])[0];
            c.category == e.category && c.id == e.id && c.kind == if e.payloadHash == f.payloadHash then Unchanged else Modified
  {
    hide Hashes, SortedKeys;
    SingleEntity(e);
    SingleEntity(f);
    var key := KeyOf(e.category, e.id);
    assert ByKey([e]).Keys + ByKey([f]).Keys == {key};
    SortedKeysMeaning({key});
    assert SortedKeys({key})[0] in SortedKeys({key});
  }

  /** Two entities filed under one key, with equal hashes: the diff reads "unchanged". */
  lemma CollidingChanges(e: Tracked, f: Tracked)
    requires KeyOf(e.category, e.id) == KeyOf(f.category, f.id) && e.payloadHash == f.payloadHash
    ensures Patch(Hashes([e]), Changes([e], [f])) == Hashes([e])
  {
    hide Hashes, Changes;
    OneKeyChange(e, f);
    var cs := Changes([e], [f]);
    assert cs[..0] == [];
  }

  /** Any non-empty text will do for an id and a hash. */
  const Name: Text := [120]

  lemma CollisionBreaksPatch(c: Text, d: Text)
    requires c + NUL <= d
    ensures exists base, head :: Within(base, {c}) && Within(head, {d}) && !PatchLaw(base, head)
  {
    hide Changes, Patch, Hashes;
    var rest := d[|c| + 1..];
    assert d == c + NUL + rest;
    var e := Tracked(c, rest + NUL + Name, Name, None);
    var f := Tracked(d, Name, Name, None);
    assert KeyOf(c, rest + NUL + Name) == KeyOf(d, Name);
    CollidingChanges(e, f);
    SingleEntity(e);
    SingleEntity(f);
    assert |c| != |d|;
    assert (c, e.id) in Hashes([e]) && (c, e.id) !in Hashes([f]);
    assert Within([e], {c}) && Within([f], {d}) && !PatchLaw([e], [f]);
  }

  /**
   Over a fixed set of categories the patch law holds of every two revisions exactly
   when no category continues another one past a NUL.
   */
  lemma PatchLawIffSeparated(categories: set<Text>)
    ensures Separated(categories)
       <==> forall base, head :: Within(base, categories) && Within(head, categories) ==> PatchLaw(base, head)
  {
    if Separated(categories) {
      forall base, head | Within(base, categories) && Within(head, categories) ensures PatchLaw(base, head) {
        PatchLawHolds(base, head, categories);
      }
    } else {
      var c, d :| c in categories && d in categories && c + NUL <= d;
      CollisionBreaksPatch(c, d);
      var base, head :| Within(base, {c}) && Within(head, {d}) && !PatchLaw(base, head);
      assert Within(base, categories) && Within(head, categories);
    }
  }

  // ----- Swapping the revisions -----

  function FlipKind(k: Kind): Kind {
    match k
    case Added => Removed
    case Removed => Added
    case _ => k
  }

  predicate Mirrors(a: Change, b: Change) {
    && a.category == b.category && a.id == b.id
    && a.kind == FlipKind(b.kind)
    && a.beforeHash == b.afterHash && a.afterHash == b.beforeHash
    && (a.kind.Added? || a.kind.Removed? ==> a.tag == b.tag)
  }

  lemma ChangesMirror(base: seq<Tracked>, head: seq<Tracked>, categories: set<Text>, k: Text)
    requires Separated(categories) && Within(base, categories) && Within(head, categories)
    requires k in ByKey(base) || k in ByKey(head)
    ensures Mirrors(ChangeAt(ByKey(base), ByKey(head), k), ChangeAt(ByKey(head), ByKey(base), k))
  {
    hide ByKey, Within;
    var b, h := ByKey(base), ByKey(head);
    if k in b && k in h {
      KeyEntry(base, categories, k);
      KeyEntry(head, categories, k);
      KeysInjective(categories, b[k].category, b[k].id, h[k].category, h[k].id);
    }
  }

  ghost predicate MirrorLaw(base: seq<Tracked>, head: seq<Tracked>) {
    var a, b := Changes(base, head), Changes(head, base);
    |a| == |b| && forall i :: 0 <= i < |a| ==> Mirrors(a[i], b[i])
  }

  /** Comparing the other way round lists the same keys in the same order, added and removed exchanged. */
  lemma SwapMirrors(base: seq<Tracked>, head: seq<Tracked>, categories: set<Text>)
    requires Separated(categories) && Within(base, categories) && Within(head, categories)
    ensures MirrorLaw(base, head)
  {
    hide ByKey, Separated, Within, SortedKeys, Mirrors, ChangeAt;
    var b, h := ByKey(base), ByKey(head);
    assert b.Keys + h.Keys == h.Keys + b.Keys;
    var keys := SortedKeys(b.Keys + h.Keys);
    SortedKeysMeaning(b.Keys + h.Keys);
    forall i | 0 <= i < |keys| ensures Mirrors(ChangeAt(b, h, keys[i]), ChangeAt(h, b, keys[i])) {
      assert keys[i] in keys;
      ChangesMirror(base, head, categories, keys[i]);
    }
  }

  lemma CollisionBreaksMirror(c: Text, d: Text)
    requires c + NUL <= d
    ensures exists base, head :: Within(base, {c}) && Within(head, {d}) && !MirrorLaw(base, head)
  {
    hide Changes, Hashes;
    var rest := d[|c| + 1..];
    assert d == c + NUL + rest;
    var e := Tracked(c, rest + NUL + Name, Name, None);
    var f := Tracked(d, Name, Name, None);
    assert KeyOf(c, rest + NUL + Name) == KeyOf(d, Name);
    OneKeyChange(e, f);
    OneKeyChange(f, e);
    assert |c| != |d|;
    assert Within([e], {c}) && Within([f], {d}) && !MirrorLaw([e], [f]);
  }

  /** Over a fixed set of categories, swapping mirrors every comparison exactly when no category continues another. */
  lemma SwapMirrorsIffSeparated(categories: set<Text>)
    ensures Separated(categories)
       <==> forall base, head :: Within(base, categories) && Within(head, categories) ==> MirrorLaw(base, head)
  {
    hide MirrorLaw;
    if Separated(categories) {
      forall base, head | Within(base, categories) && Within(head, categories) ensures MirrorLaw(base, head) {
        SwapMirrors(base, head, categories);
      }
    } else {
      var c, d :| c in categories && d in categories && c + NUL <= d;
      CollisionBreaksMirror(c, d);
      var base, head :| Within(base, {c}) && Within(head, {d}) && !MirrorLaw(base, head);
      assert Within(base, categories) && Within(head, categories);
    }
  }

  lemma {:induction false} MirroredCounts(a: seq<Change>, b: seq<Change>, category: Text, k: Kind)
    requires |a| == |b| && forall i :: 0 <= i < |a| ==> Mirrors(a[i], b[i])
    ensures CountIn(a, category, k) == CountIn(b, category, FlipKind(k))
  {
    if a != [] {
      MirroredCounts(a[..|a| - 1], b[..|b| - 1], category, k);
    }
  }

  lemma {:induction false} FiledUnderOwnKey(es: seq<Tracked>)
    ensures forall k :: k in ByKey(es) ==> k == KeyOf(ByKey(es)[k].category, ByKey(es)[k].id)
  {
    if es != [] {
      FiledUnderOwnKey(es[..|es| - 1]);
    }
  }

  /** Every change is listed once, in ascending key order, even when categories collide. */
  lemma ChangesAscending(base: seq<Tracked>, head: seq<Tracked>)
    ensures var cs := Changes(base, head);
            forall i, j :: 0 <= i < j < |cs| ==>
              var k, l := KeyOf(cs[i].category, cs[i].id), KeyOf(cs[j].category, cs[j].id);
              LexLe(k, l) && k != l
  {
    hide ByKey, SortedKeys, KeyOf;
    var b, h := ByKey(base), ByKey(head);
    var keys := SortedKeys(b.Keys + h.Keys);
    SortedKeysMeaning(b.Keys + h.Keys);
    FiledUnderOwnKey(base);
    FiledUnderOwnKey(head);
    var cs := Changes(base, head);
    forall i | 0 <= i < |cs| ensures KeyOf(cs[i].category, cs[i].id) == keys[i] {
      assert keys[i] in keys;
    }
  }

  // ----- What a change says -----

  ghost predicate LastWithKey(es: seq<Tracked>, key: Text, i: int) {
    && 0 <= i < |es| && KeyOf(es[i].category, es[i].id) == key
    && forall j :: i < j < |es| ==> KeyOf(es[j].category, es[j].id) != key
  }

  /** A revision lists under each key the last entity recorded with it. */
  lemma {:induction false} LastIsFiled(es: seq<Tracked>, key: Text)
    ensures key in ByKey(es) <==> exists i :: LastWithKey(es, key, i)
    ensures forall i :: LastWithKey(es, key, i) ==> key in ByKey(es) && ByKey(es)[key] == es[i]
  {
    if es != [] {
      var n := |es| - 1;
      LastIsFiled(es[..n], key);
      if KeyOf(es[n].category, es[n].id) == key {
        assert LastWithKey(es, key, n);
      } else {
        forall i ensures LastWithKey(es[..n], key, i) <==> LastWithKey(es, key, i) {
          if LastWithKey(es[..n], key, i) {
            assert forall j :: i < j < n ==> es[..n][j] == es[j];
          }
          if LastWithKey(es, key, i) {
            assert i != n && forall j :: i < j < n ==> es[..n][j] == es[j];
          }
        }
      }
    }
  }

  /** Each listed change, from the entities its key has in the two revisions: the head's label wins where it has one. */
  lemma ChangeSays(base: seq<Tracked>, head: seq<Tracked>, i: nat)
    requires i < |Changes(base, head)|
    ensures var c := Changes(base, head)[i];
            var key := KeyOf(c.category, c.id);
            && (key in ByKey(base) || key in ByKey(head))
            && (key in ByKey(base) && key in ByKey(head) ==>
                 var b, h := ByKey(base)[key], ByKey(head)[key];
                 && c.category == b.category && c.id == b.id
                 && (c.kind == Unchanged <==> b.payloadHash == h.payloadHash)
                 && (c.kind == Modified <==> b.payloadHash != h.payloadHash)
                 && c.beforeHash == Some(b.payloadHash) && c.afterHash == Some(h.payloadHash)
                 && (h.tag.Some? ==> c.tag == h.tag) && (h.tag.None? ==> c.tag == b.tag))
            && (key !in ByKey(base) ==>
                 var h := ByKey(head)[key];
                 c == Change(h.category, h.id, Added, None, Some(h.payloadHash), h.tag))
            && (key !in ByKey(head) ==>
                 var b := ByKey(base)[key];
                 c == Change(b.category, b.id, Removed, Some(b.payloadHash), None, b.tag))
  {
    hide ByKey, SortedKeys, KeyOf;
    FiledUnderOwnKey(base);
    FiledUnderOwnKey(head);
    var keys := SortedKeys(ByKey(base).Keys + ByKey(head).Keys);
    SortedKeysMeaning(ByKey(base).Keys + ByKey(head).Keys);
    assert keys[i] in keys;
  }
}
