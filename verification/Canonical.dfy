/**
 The canonical text of a call's params (cep/src/approval.rs), whose hash binds an approval to one
 exact call. The hash itself is not modelled: the text stands for the digest.
 */
module Canonical {
  import opened Lists
  import opened Json
  import opened Text
  import opened Sorting

  predicate KeyLess(a: Member, b: Member) { Less(a.key, b.key) }

  /** The same members, with `Sorted` done to each value. */
  function SortedValues(ms: seq<Member>): (r: seq<Member>)
    ensures |r| == |ms| && forall i | 0 <= i < |ms| :: r[i] == Member(ms[i].key, Sorted(ms[i].value))
    decreases ms
  {
    seq(|ms|, i requires 0 <= i < |ms| => Member(ms[i].key, Sorted(ms[i].value)))
  }

  /** The value with the members of every object in key order, at every depth. */
  function Sorted(v: Value): Value
    decreases v
  {
    match v
    case Arr(items) => Arr(seq(|items|, i requires 0 <= i < |items| => Sorted(items[i])))
    case Obj(ms) => Obj(Sort(KeyLess, SortedValues(ms)))
    case _ => v
  }

  function Canonical(v: Value): string { Print(Sorted(v)) }

  /** Equal up to the order of object members, at every depth. */
  ghost predicate Same(v: Value, w: Value)
    decreases v
  {
    match (v, w)
    case (Arr(a), Arr(b)) =>
      |a| == |b| && forall i | 0 <= i < |a| :: Same(a[i], b[i])
    case (Obj(a), Obj(b)) =>
      && (forall i | 0 <= i < |a| :: HasKey(b, a[i].key))
      && (forall j | 0 <= j < |b| :: HasKey(a, b[j].key))
      && (forall i, j | 0 <= i < |a| && 0 <= j < |b| && a[i].key == b[j].key :: Same(a[i].value, b[j].value))
    case _ => v == w
  }

  ghost predicate HasKey(ms: seq<Member>, key: string) {
    exists i :: 0 <= i < |ms| && ms[i].key == key
  }

  // ----- key order -----

  lemma KeyLessIsStrict()
    ensures StrictOrder(KeyLess)
  {
    LessIsStrict();
  }

  lemma UniqueKeysComparable(ms: seq<Member>)
    requires UniqueKeys(ms)
    ensures Comparable(KeyLess, ms)
  {
    forall i, j | 0 <= i < j < |ms| ensures KeyLess(ms[i], ms[j]) || KeyLess(ms[j], ms[i]) {
      LessTotal(ms[i].key, ms[j].key);
    }
  }

  lemma SortedMembersAscend(ms: seq<Member>)
    requires UniqueKeys(ms)
    ensures Ascending(KeyLess, Sort(KeyLess, SortedValues(ms)))
  {
    KeyLessIsStrict();
    UniqueKeysComparable(SortedValues(ms));
    SortAscending(KeyLess, SortedValues(ms));
  }

  lemma AscendingKeysUnique(ms: seq<Member>)
    requires Ascending(KeyLess, ms)
    ensures UniqueKeys(ms)
  {
    forall i, j | 0 <= i < j < |ms| ensures ms[i].key != ms[j].key {
      assert KeyLess(ms[i], ms[j]);
      LessIrreflexive(ms[i].key);
    }
  }

  lemma {:induction false} SortedValid(v: Value)
    requires Valid(v)
    ensures Valid(Sorted(v))
    decreases v
  {
    match v {
      case Arr(items) =>
        forall i | 0 <= i < |items| ensures Valid(Sorted(items[i])) { SortedValid(items[i]); }
      case Obj(ms) =>
        var values := SortedValues(ms);
        var r := Sort(KeyLess, values);
        SortedMembersAscend(ms);
        AscendingKeysUnique(r);
        SameMembers(r, values);
        forall k | 0 <= k < |r| ensures Valid(r[k].value) {
          assert r[k] in values;
          var i :| 0 <= i < |values| && values[i] == r[k];
          SortedValid(ms[i].value);
        }
      case _ =>
    }
  }

  /** In every object at every depth, each key comes before the next in the order of characters. */
  ghost predicate KeysAscend(v: Value)
    decreases v
  {
    match v
    case Arr(items) => forall i | 0 <= i < |items| :: KeysAscend(items[i])
    case Obj(ms) =>
      && (forall i, j | 0 <= i < j < |ms| :: LexBefore(ms[i].key, ms[j].key))
      && forall i | 0 <= i < |ms| :: KeysAscend(ms[i].value)
    case _ => true
  }

  lemma {:induction false} SortedKeysAscend(v: Value)
    requires Valid(v)
    ensures KeysAscend(Sorted(v))
    decreases v
  {
    match v {
      case Arr(items) =>
        forall i | 0 <= i < |items| ensures KeysAscend(Sorted(items[i])) { SortedKeysAscend(items[i]); }
      case Obj(ms) =>
        var values := SortedValues(ms);
        var r := Sort(KeyLess, values);
        SortedMembersAscend(ms);
        SameMembers(r, values);
        forall i, j | 0 <= i < j < |r| ensures LexBefore(r[i].key, r[j].key) { LessIs(r[i].key, r[j].key); }
        forall k | 0 <= k < |r| ensures KeysAscend(r[k].value) {
          assert r[k] in values;
          var i :| 0 <= i < |values| && values[i] == r[k];
          SortedKeysAscend(ms[i].value);
        }
      case _ =>
    }
  }

  // ----- the canonical text decides sameness -----

  /** Two values have the same sorted form exactly when they are equal up to member order. */
  lemma {:induction false} SortedDecidesSame(v: Value, w: Value)
    requires Valid(v) && Valid(w)
    ensures Sorted(v) == Sorted(w) <==> Same(v, w)
    decreases v
  {
    if v.Arr? && w.Arr? {
      ItemsDecideSame(v.items, w.items);
    } else if v.Obj? && w.Obj? {
      MembersDecideSame(v, w);
    }
  }

  lemma {:induction false} ItemsDecideSame(a: seq<Value>, b: seq<Value>)
    requires Valid(Arr(a)) && Valid(Arr(b))
    ensures Sorted(Arr(a)) == Sorted(Arr(b)) <==> Same(Arr(a), Arr(b))
    decreases a
  {
    if |a| == |b| {
      var sa, sb := Sorted(Arr(a)).items, Sorted(Arr(b)).items;
      forall i | 0 <= i < |a| ensures sa[i] == sb[i] <==> Same(a[i], b[i]) {
        SortedDecidesSame(a[i], b[i]);
      }
      assert sa == sb <==> forall i | 0 <= i < |a| :: sa[i] == sb[i];
    } else {
      assert |Sorted(Arr(a)).items| == |a| && |Sorted(Arr(b)).items| == |b|;
    }
  }

  lemma {:induction false} MembersDecideSame(v: Value, w: Value)
    requires v.Obj? && w.Obj? && Valid(v) && Valid(w)
    ensures Sorted(v) == Sorted(w) <==> Same(v, w)
    decreases v, 0
  {
    var a, b := v.members, w.members;
    var sa, sb := SortedValues(a), SortedValues(b);
    forall i, j | 0 <= i < |a| && 0 <= j < |b|
      ensures Sorted(a[i].value) == Sorted(b[j].value) <==> Same(a[i].value, b[j].value)
    {
      SortedDecidesSame(a[i].value, b[j].value);
    }
    KeyLessIsStrict();
    SortedMembersAscend(a);
    SortedMembersAscend(b);
    SameMembers(Sort(KeyLess, sa), sa);
    SameMembers(Sort(KeyLess, sb), sb);
    if Same(v, w) {
      forall m ensures m in sa <==> m in sb {
        Partner(a, b, m);
        Partner(b, a, m);
      }
      AscendingUnique(KeyLess, Sort(KeyLess, sa), Sort(KeyLess, sb));
    }
    if Sorted(v) == Sorted(w) {
      SameFromMembers(v, w);
    }
  }

  /** Members of `a` have their sorted form among those of `b` when keys and values agree. */
  lemma Partner(a: seq<Member>, b: seq<Member>, m: Member)
    requires forall i | 0 <= i < |a| :: HasKey(b, a[i].key)
    requires forall i, j | 0 <= i < |a| && 0 <= j < |b| && a[i].key == b[j].key ::
               Sorted(a[i].value) == Sorted(b[j].value)
    ensures m in SortedValues(a) ==> m in SortedValues(b)
  {
    if m in SortedValues(a) {
      var i :| 0 <= i < |a| && SortedValues(a)[i] == m;
      assert HasKey(b, a[i].key);
      var j :| 0 <= j < |b| && b[j].key == a[i].key;
      assert SortedValues(b)[j] == m;
    }
  }

  lemma SameFromMembers(v: Value, w: Value)
    requires v.Obj? && w.Obj? && UniqueKeys(v.members) && UniqueKeys(w.members)
    requires forall i, j | 0 <= i < |v.members| && 0 <= j < |w.members| ::
               Sorted(v.members[i].value) == Sorted(w.members[j].value) <==>
                   Same(v.members[i].value, w.members[j].value)
    requires forall m :: m in SortedValues(v.members) <==> m in SortedValues(w.members)
    ensures Same(v, w)
  {
    hide Sorted;
    var a, b := v.members, w.members;
    var sa, sb := SortedValues(a), SortedValues(b);
    forall i | 0 <= i < |a| ensures HasKey(b, a[i].key) {
      assert sa[i] in sb;
      var j :| 0 <= j < |sb| && sb[j] == sa[i];
      assert b[j].key == a[i].key;
    }
    forall j | 0 <= j < |b| ensures HasKey(a, b[j].key) {
      assert sb[j] in sa;
      var i :| 0 <= i < |sa| && sa[i] == sb[j];
      assert a[i].key == b[j].key;
    }
    forall i, j | 0 <= i < |a| && 0 <= j < |b| && a[i].key == b[j].key
      ensures Same(a[i].value, b[j].value)
    {
      assert sa[i] in sb;
      var k :| 0 <= k < |sb| && sb[k] == sa[i];
      assert b[k].key == b[j].key;
      assert k == j;
    }
  }

  /** Reading the canonical text gives the sorted value back, so the text loses nothing else. */
  lemma CanonicalReadsBack(v: Value)
    requires Valid(v)
    ensures Parse(Canonical(v)) == Done(Sorted(v), [])
  {
    SortedValid(v);
    ParsePrint(Sorted(v), []);
    assert Canonical(v) + [] == Canonical(v);
  }

  /** The canonical texts of two params are equal exactly when the params are, up to key order. */
  lemma CanonicalDecidesSame(v: Value, w: Value)
    requires Valid(v) && Valid(w)
    ensures Canonical(v) == Canonical(w) <==> Same(v, w)
  {
    CanonicalReadsBack(v);
    CanonicalReadsBack(w);
    SortedDecidesSame(v, w);
  }

  // ----- the code: structural recursion that appends to a text -----

  function KeysOf(ms: seq<Member>): (ks: seq<string>)
    ensures |ks| == |ms| && forall i | 0 <= i < |ms| :: ks[i] == ms[i].key
  {
    seq(|ms|, i requires 0 <= i < |ms| => ms[i].key)
  }

  /** Where the map holds `key`. */
  function IndexOf(ms: seq<Member>, key: string): (i: nat)
    requires HasKey(ms, key)
    ensures i < |ms| && ms[i].key == key
  {
    FirstWhere(ms, (m: Member) => m.key == key)
  }

  /** Sorting the keys alone puts them where sorting the members puts them. */
  lemma SortedKeys(ms: seq<Member>)
    requires UniqueKeys(ms)
    ensures Sort(Less, KeysOf(ms)) == KeysOf(Sort(KeyLess, SortedValues(ms)))
  {
    var keys, members := Sort(Less, KeysOf(ms)), Sort(KeyLess, SortedValues(ms));
    LessIsStrict();
    SortedMembersAscend(ms);
    forall i, j | 0 <= i < j < |ms| ensures Less(ms[i].key, ms[j].key) || Less(ms[j].key, ms[i].key) {
      LessTotal(ms[i].key, ms[j].key);
    }
    SortAscending(Less, KeysOf(ms));
    SameMembers(keys, KeysOf(ms));
    SameMembers(members, SortedValues(ms));
    forall i, j | 0 <= i < j < |members| ensures Less(KeysOf(members)[i], KeysOf(members)[j]) {
      assert KeyLess(members[i], members[j]);
    }
    forall k ensures k in keys <==> k in KeysOf(members) {
      if k in keys {
        assert k in KeysOf(ms);
        var i :| 0 <= i < |ms| && KeysOf(ms)[i] == k;
        assert SortedValues(ms)[i] in members;
        var j :| 0 <= j < |members| && members[j] == SortedValues(ms)[i];
        assert KeysOf(members)[j] == k;
      }
      if k in KeysOf(members) {
        var j :| 0 <= j < |members| && KeysOf(members)[j] == k;
        assert members[j] in SortedValues(ms);
        var i :| 0 <= i < |ms| && SortedValues(ms)[i] == members[j];
        assert KeysOf(ms)[i] == k;
      }
    }
    AscendingUnique(Less, keys, KeysOf(members));
  }

  /** The value looked up under a sorted key is the sorted member's value before sorting. */
  lemma LookupSorted(ms: seq<Member>, k: nat)
    requires UniqueKeys(ms) && k < |Sort(KeyLess, SortedValues(ms))|
    ensures var m := Sort(KeyLess, SortedValues(ms))[k];
      HasKey(ms, m.key) && m.value == Sorted(ms[IndexOf(ms, m.key)].value)
  {
    var members := Sort(KeyLess, SortedValues(ms));
    SameMembers(members, SortedValues(ms));
    assert members[k] in SortedValues(ms);
    var i :| 0 <= i < |ms| && SortedValues(ms)[i] == members[k];
    assert ms[i].key == members[k].key;
  }

  lemma {:induction false} PrintMembersPush(ms: seq<Member>, m: Member)
    ensures PrintMembers(ms + [m]) == if ms == [] then PrintMember(m) else PrintMembers(ms) + "," + PrintMember(m)
    decreases |ms|
  {
    if ms == [] {
      assert ms + [m] == [m];
    } else {
      PrintMembersPush(ms[1..], m);
      assert (ms + [m])[1..] == ms[1..] + [m];
      assert (ms + [m])[0] == ms[0];
    }
  }

  lemma {:induction false} PrintItemsPush(items: seq<Value>, v: Value)
    ensures PrintItems(items + [v]) == if items == [] then Print(v) else PrintItems(items) + "," + Print(v)
    decreases |items|
  {
    if items == [] {
      assert items + [v] == [v];
    } else {
      PrintItemsPush(items[1..], v);
      assert (items + [v])[1..] == items[1..] + [v];
      assert (items + [v])[0] == items[0];
    }
  }

  /** One more member or item of a list, as the loops below append it. */
  lemma AppendAssociates(out: string, open: string, done: string, comma: string, last: string)
    ensures out + open + done + comma + last == out + open + (done + comma + last)
  {
  }

  /** `canonical` of the engine: one match, appending to the text it is given. */
  method AppendCanonical(value: Value, out: string) returns (text: string)
    requires Valid(value)
    ensures text == out + Canonical(value)
    decreases value, 1
  {
    match value {
      case Obj(ms) => text := AppendObject(ms, out);
      case Arr(items) => text := AppendArray(items, out);
      case _ => text := out + Print(value);
    }
  }

  /** It sorts the keys of an object and looks each value up. */
  method AppendObject(ms: seq<Member>, out: string) returns (text: string)
    requires Valid(Obj(ms))
    ensures text == out + Canonical(Obj(ms))
    decreases ms, 0
  {
    var keys := Sort(Less, KeysOf(ms));
    ghost var members := Sort(KeyLess, SortedValues(ms));
    KeyCount(ms);
    text := out + "{";
    for i := 0 to |keys|
      invariant text == ObjectSoFar(out, members, i)
    {
      MemberAt(ms, i);
      NextMember(out, members, i);
      if i > 0 { text := text + ","; }
      text := text + Quote(keys[i]) + ":";
      text := AppendCanonical(ms[IndexOf(ms, keys[i])].value, text);
    }
    assert members[..|keys|] == members;
    BodyText(out, "{", PrintMembers(members), "}");
    text := text + "}";
  }

  lemma KeyCount(ms: seq<Member>)
    requires UniqueKeys(ms)
    ensures |Sort(Less, KeysOf(ms))| == |Sort(KeyLess, SortedValues(ms))|
  {
    SortedKeys(ms);
  }

  /** What the loop prints at place `i` is the sorted form's member there. */
  lemma MemberAt(ms: seq<Member>, i: nat)
    requires UniqueKeys(ms) && i < |Sort(KeyLess, SortedValues(ms))|
    ensures var keys, m := Sort(Less, KeysOf(ms)), Sort(KeyLess, SortedValues(ms))[i];
      && i < |keys| && keys[i] == m.key && HasKey(ms, m.key)
      && Canonical(ms[IndexOf(ms, m.key)].value) == Print(m.value)
  {
    SortedKeys(ms);
    LookupSorted(ms, i);
  }

  ghost function ObjectSoFar(out: string, members: seq<Member>, i: nat): string
    requires i <= |members|
  {
    out + "{" + PrintMembers(members[..i])
  }

  lemma NextMember(out: string, members: seq<Member>, i: nat)
    requires i < |members|
    ensures ObjectSoFar(out, members, i) + (if i > 0 then "," else "") + Quote(members[i].key) + ":"
            + Print(members[i].value) == ObjectSoFar(out, members, i + 1)
  {
    PrintMembersPush(members[..i], members[i]);
    assert members[..i] + [members[i]] == members[..i + 1];
    var comma := if i > 0 then "," else "";
    MemberText(ObjectSoFar(out, members, i) + comma, members[i]);
    AppendAssociates(out, "{", PrintMembers(members[..i]), comma, PrintMember(members[i]));
  }

  lemma MemberText(before: string, m: Member)
    ensures before + Quote(m.key) + ":" + Print(m.value) == before + PrintMember(m)
  {
  }

  lemma BodyText(out: string, open: string, body: string, close: string)
    ensures out + open + body + close == out + (open + body + close)
  {
  }

  method AppendArray(items: seq<Value>, out: string) returns (text: string)
    requires Valid(Arr(items))
    ensures text == out + Canonical(Arr(items))
    decreases items, 0
  {
    ghost var sorted := Sorted(Arr(items)).items;
    text := out + "[";
    for i := 0 to |items|
      invariant text == out + "[" + PrintItems(sorted[..i])
    {
      PrintItemsPush(sorted[..i], sorted[i]);
      assert sorted[..i] + [sorted[i]] == sorted[..i + 1];
      var comma := if i > 0 then "," else "";
      text := AppendCanonical(items[i], text + comma);
      AppendAssociates(out, "[", PrintItems(sorted[..i]), comma, Print(sorted[i]));
    }
    assert sorted[..|items|] == sorted;
    BodyText(out, "[", PrintItems(sorted), "]");
    text := text + "]";
  }
}
