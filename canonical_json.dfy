/**
 * The payload of a cache key: a JSON value serialised with `sort_keys=True`.
 * The text that `json.dumps` produces is not modelled; what is modelled is the
 * canonical tree it serialises, in which every object's members appear in
 * increasing key order. `Equiv` is equality of JSON values as dictionaries
 * (same keys, equivalent values, insertion order irrelevant), and
 * `CanonRespectsEquiv` shows that the canonical form depends only on that.
 */
module CanonicalJson {
  import Text

  datatype Json =
    | JNull
    | JBool(b: bool)
    | JInt(i: int)
    | JStr(s: string)
    | JList(items: seq<Json>)
    | JObject(members: seq<Member>)

  datatype Member = Member(key: string, value: Json)

  /** A Python dict never holds a key twice. */
  predicate UniqueKeys(ms: seq<Member>) {
    forall i, j :: 0 <= i < j < |ms| ==> ms[i].key != ms[j].key
  }

  /** Members in strictly increasing key order. */
  predicate KeysIncreasing(ms: seq<Member>) {
    forall i, j :: 0 <= i < j < |ms| ==> Text.Less(ms[i].key, ms[j].key)
  }

  /** Members with no later key smaller than an earlier one. */
  predicate KeysNonDecreasing(ms: seq<Member>) {
    forall i, j :: 0 <= i < j < |ms| ==> !Text.Less(ms[j].key, ms[i].key)
  }

  function InsertMember(m: Member, ms: seq<Member>): (r: seq<Member>)
    requires KeysNonDecreasing(ms)
    ensures forall x :: x in r <==> x in ms || x == m
    ensures |r| == |ms| + 1
    ensures r[0] == m || (ms != [] && r[0] == ms[0])
    ensures KeysNonDecreasing(r)
    ensures UniqueKeys(ms) && (forall k :: 0 <= k < |ms| ==> ms[k].key != m.key) ==> UniqueKeys(r)
  {
    if ms == [] then [m]
    else if Text.Less(m.key, ms[0].key) then
      SmallerHeadNonDecreasing(m, ms);
      [m] + ms
    else
      var rest := InsertMember(m, ms[1..]);
      assert ms == [ms[0]] + ms[1..];
      NonDecreasingCons(ms[0], rest, m, ms);
      assert UniqueKeys(ms) && (forall k :: 0 <= k < |ms| ==> ms[k].key != m.key) ==> UniqueKeys([ms[0]] + rest) by {
        if UniqueKeys(ms) && (forall k :: 0 <= k < |ms| ==> ms[k].key != m.key) {
          assert forall k :: 0 <= k < |ms[1..]| ==> ms[1..][k] == ms[k + 1];
          UniqueCons(m, ms, rest);
        }
      }
      [ms[0]] + rest
  }

  lemma SmallerHeadNonDecreasing(m: Member, ms: seq<Member>)
    requires KeysNonDecreasing(ms) && ms != [] && Text.Less(m.key, ms[0].key)
    ensures KeysNonDecreasing([m] + ms)
  {
    var r := [m] + ms;
    forall i, j | 0 <= i < j < |r| ensures !Text.Less(r[j].key, r[i].key) {
      if i == 0 && Text.Less(r[j].key, m.key) {
        if j > 1 {
          assert !Text.Less(ms[j - 1].key, ms[0].key);
          Text.LessTransitive(r[j].key, m.key, ms[0].key);
        } else {
          Text.LessAsymmetric(m.key, ms[0].key);
        }
      }
    }
  }

  lemma UniqueCons(m: Member, ms: seq<Member>, rest: seq<Member>)
    requires ms != [] && UniqueKeys(ms) && forall k :: 0 <= k < |ms| ==> ms[k].key != m.key
    requires UniqueKeys(rest) && forall x :: x in rest <==> x in ms[1..] || x == m
    ensures UniqueKeys([ms[0]] + rest)
  {
    forall j | 0 <= j < |rest| ensures rest[j].key != ms[0].key {
      assert rest[j] in rest;
      if rest[j] != m {
        var k :| 0 <= k < |ms[1..]| && ms[1..][k] == rest[j];
        assert ms[k + 1] == rest[j];
      }
    }
  }

  lemma NonDecreasingCons(h: Member, rest: seq<Member>, m: Member, ms: seq<Member>)
    requires ms != [] && h == ms[0] && KeysNonDecreasing(ms) && KeysNonDecreasing(rest)
    requires !Text.Less(m.key, h.key)
    requires rest != [] && (rest[0] == m || (ms[1..] != [] && rest[0] == ms[1..][0]))
    ensures KeysNonDecreasing([h] + rest)
  {
    var r := [h] + rest;
    assert !Text.Less(rest[0].key, h.key) by {
      if rest[0] != m { assert rest[0] == ms[1]; }
    }
    forall i, j | 0 <= i < j < |r| ensures !Text.Less(r[j].key, r[i].key) {
      if i == 0 && j > 1 {
        assert !Text.Less(rest[j - 1].key, rest[0].key);
        if Text.Less(r[j].key, h.key) && rest[0].key != h.key {
          Text.LessTotal(rest[0].key, h.key);
          Text.LessTransitive(r[j].key, h.key, rest[0].key);
        }
      }
    }
  }

  /** `sorted(d.items())`: the members rearranged into key order. */
  function SortMembers(ms: seq<Member>): (r: seq<Member>)
    ensures forall x :: x in r <==> x in ms
    ensures |r| == |ms|
    ensures KeysNonDecreasing(r)
    ensures UniqueKeys(ms) ==> UniqueKeys(r)
  {
    if ms == [] then []
    else
      var rest := SortMembers(ms[1..]);
      assert forall x :: x in ms <==> x == ms[0] || x in ms[1..] by { assert ms == [ms[0]] + ms[1..]; }
      assert UniqueKeys(ms) ==> forall k :: 0 <= k < |rest| ==> rest[k].key != ms[0].key by {
        if UniqueKeys(ms) {
          assert forall k :: 0 <= k < |ms[1..]| ==> ms[1..][k] == ms[k + 1];
          forall k | 0 <= k < |rest| ensures rest[k].key != ms[0].key {
            assert rest[k] in rest;
            var i :| 0 <= i < |ms[1..]| && ms[1..][i] == rest[k];
            assert ms[i + 1] == rest[k];
          }
        }
      }
      InsertMember(ms[0], rest)
  }

  lemma SortedUniqueIsIncreasing(ms: seq<Member>)
    requires KeysNonDecreasing(ms) && UniqueKeys(ms)
    ensures KeysIncreasing(ms)
  {
    forall i, j | 0 <= i < j < |ms| ensures Text.Less(ms[i].key, ms[j].key) {
      Text.LessTotal(ms[i].key, ms[j].key);
    }
  }

  /** Two key-ordered member lists with the same members are the same list. */
  lemma {:induction false} IncreasingWithSameMembersAreEqual(a: seq<Member>, b: seq<Member>)
    requires KeysIncreasing(a) && KeysIncreasing(b)
    requires forall m :: m in a <==> m in b
    ensures a == b
    decreases |a|
  {
    if a == [] {
      if b != [] {
        HeadsAgree(b, a);
      }
    } else {
      HeadsAgree(a, b);
      assert a == [a[0]] + a[1..] && b == [b[0]] + b[1..];
      TailsAgree(a, b);
      IncreasingWithSameMembersAreEqual(a[1..], b[1..]);
    }
  }

  lemma HeadsAgree(a: seq<Member>, b: seq<Member>)
    requires KeysIncreasing(a) && KeysIncreasing(b) && a != []
    requires forall m :: m in a <==> m in b
    ensures b != [] && a[0] == b[0]
  {
    assert a[0] in b;
    var k :| 0 <= k < |b| && b[k] == a[0];
    assert b[0] in a;
    var i :| 0 <= i < |a| && a[i] == b[0];
    if i != 0 {
      assert Text.Less(a[0].key, b[0].key);
      if k != 0 {
        assert Text.Less(b[0].key, a[0].key);
        Text.LessAsymmetric(a[0].key, b[0].key);
        assert false;
      } else {
        Text.LessIrreflexive(a[0].key);
        assert false;
      }
    }
  }

  lemma TailsAgree(a: seq<Member>, b: seq<Member>)
    requires KeysIncreasing(a) && KeysIncreasing(b) && a != [] && b != [] && a[0] == b[0]
    requires forall m :: m in a <==> m in b
    ensures KeysIncreasing(a[1..]) && KeysIncreasing(b[1..])
    ensures forall m :: m in a[1..] <==> m in b[1..]
  {
    assert a == [a[0]] + a[1..] && b == [b[0]] + b[1..];
    forall m | m in a[1..] ensures m in b[1..] {
      var x :| 0 <= x < |a[1..]| && a[1..][x] == m;
      assert a[x + 1] == m;
      assert Text.Less(a[0].key, m.key);
      assert m != b[0] by { Text.LessIrreflexive(m.key); }
      assert m in b;
    }
    forall m | m in b[1..] ensures m in a[1..] {
      var x :| 0 <= x < |b[1..]| && b[1..][x] == m;
      assert b[x + 1] == m;
      assert Text.Less(b[0].key, m.key);
      assert m != a[0] by { Text.LessIrreflexive(m.key); }
      assert m in a;
    }
    assert forall i :: 0 <= i < |a[1..]| ==> a[1..][i] == a[i + 1];
    assert forall i :: 0 <= i < |b[1..]| ==> b[1..][i] == b[i + 1];
  }

  /** The tree `json.dumps(j, sort_keys=True)` serialises: every object's members key-sorted. */
  function Canon(j: Json): Json
    decreases j
  {
    match j
    case JList(items) => JList(seq(|items|, i requires 0 <= i < |items| => Canon(items[i])))
    case JObject(ms) => JObject(SortMembers(CanonValues(ms)))
    case _ => j
  }

  function CanonValues(ms: seq<Member>): (r: seq<Member>)
    ensures |r| == |ms|
    ensures forall i :: 0 <= i < |ms| ==> r[i].key == ms[i].key
    decreases JObject(ms), 0
  {
    seq(|ms|, i requires 0 <= i < |ms| => Member(ms[i].key, Canon(ms[i].value)))
  }

  /** Every object inside `j` is a dictionary: no key occurs twice. */
  predicate WellFormed(j: Json)
    decreases j
  {
    match j
    case JList(items) => forall i :: 0 <= i < |items| ==> WellFormed(items[i])
    case JObject(ms) => UniqueKeys(ms) && forall i :: 0 <= i < |ms| ==> WellFormed(ms[i].value)
    case _ => true
  }

  /** The position of `key` among the members, if present. */
  function IndexOf(ms: seq<Member>, key: string): (r: int)
    ensures -1 <= r < |ms|
    ensures r >= 0 ==> ms[r].key == key
    ensures r < 0 <==> forall k :: 0 <= k < |ms| ==> ms[k].key != key
  {
    if ms == [] then -1
    else if ms[0].key == key then 0
    else
      var t := IndexOf(ms[1..], key);
      assert forall k :: 1 <= k < |ms| ==> ms[k] == ms[1..][k - 1];
      if t < 0 then -1 else t + 1
  }

  /**
   * Equality as Python dictionaries and lists: objects have the same keys
   * with equivalent values, in whatever insertion order; lists are equal
   * position by position.
   */
  predicate Equiv(a: Json, b: Json)
    decreases a
  {
    match a
    case JList(xs) =>
      && b.JList? && |xs| == |b.items|
      && forall i :: 0 <= i < |xs| ==> Equiv(xs[i], b.items[i])
    case JObject(ms) =>
      && b.JObject? && UniqueKeys(ms) && UniqueKeys(b.members)
      && (forall k :: 0 <= k < |b.members| ==> IndexOf(ms, b.members[k].key) >= 0)
      && forall i :: 0 <= i < |ms| ==>
           var k := IndexOf(b.members, ms[i].key);
           k >= 0 && Equiv(ms[i].value, b.members[k].value)
    case _ => a == b
  }

  /** `sort_keys=True` makes the serialised tree a function of the dictionary contents alone. */
  lemma {:induction false} CanonRespectsEquiv(a: Json, b: Json)
    requires Equiv(a, b)
    ensures Canon(a) == Canon(b)
    decreases a, 2
  {
    match a
    case JList(xs) =>
      forall i | 0 <= i < |xs| ensures Canon(xs[i]) == Canon(b.items[i]) {
        CanonRespectsEquiv(xs[i], b.items[i]);
      }
    case JObject(ms) =>
      CanonValuesMatch(ms, b.members);
      SortedCanonValuesEqual(CanonValues(ms), CanonValues(b.members));
    case _ =>
  }

  /** Equivalent dictionaries have the same canonical members, as sets. */
  lemma {:induction false} CanonValuesMatch(ms: seq<Member>, ns: seq<Member>)
    requires Equiv(JObject(ms), JObject(ns))
    ensures forall m :: m in CanonValues(ms) <==> m in CanonValues(ns)
    decreases JObject(ms), 1
  {
    CanonValuesForward(ms, ns);
    CanonValuesBackward(ms, ns);
  }

  /** Each canonical member of `ms` is a canonical member of `ns`. */
  lemma {:induction false} CanonValuesForward(ms: seq<Member>, ns: seq<Member>)
    requires Equiv(JObject(ms), JObject(ns))
    ensures forall m :: m in CanonValues(ms) ==> m in CanonValues(ns)
    decreases JObject(ms), 0
  {
    var ca, cb := CanonValues(ms), CanonValues(ns);
    forall m | m in ca ensures m in cb {
      var i :| 0 <= i < |ca| && ca[i] == m;
      var k := IndexOf(ns, ms[i].key);
      CanonRespectsEquiv(ms[i].value, ns[k].value);
      assert cb[k] == m;
    }
  }

  /** Each canonical member of `ns` is a canonical member of `ms`. */
  lemma {:induction false} CanonValuesBackward(ms: seq<Member>, ns: seq<Member>)
    requires Equiv(JObject(ms), JObject(ns))
    ensures forall m :: m in CanonValues(ns) ==> m in CanonValues(ms)
    decreases JObject(ms), 0
  {
    var ca, cb := CanonValues(ms), CanonValues(ns);
    forall m | m in cb ensures m in ca {
      var k :| 0 <= k < |cb| && cb[k] == m;
      var i := IndexOf(ms, ns[k].key);
      assert IndexOf(ns, ms[i].key) == k;
      CanonRespectsEquiv(ms[i].value, ns[k].value);
      assert ca[i] == m;
    }
  }

  lemma SortedCanonValuesEqual(ca: seq<Member>, cb: seq<Member>)
    requires UniqueKeys(ca) && UniqueKeys(cb)
    requires forall m :: m in ca <==> m in cb
    ensures SortMembers(ca) == SortMembers(cb)
  {
    var sa, sb := SortMembers(ca), SortMembers(cb);
    SortedUniqueIsIncreasing(sa);
    SortedUniqueIsIncreasing(sb);
    IncreasingWithSameMembersAreEqual(sa, sb);
  }

  /** In the canonical form of a dictionary the keys strictly increase. */
  lemma CanonObjectKeysIncrease(ms: seq<Member>)
    requires UniqueKeys(ms)
    ensures Canon(JObject(ms)).JObject? && KeysIncreasing(Canon(JObject(ms)).members)
  {
    var c := CanonValues(ms);
    assert UniqueKeys(c);
    SortedUniqueIsIncreasing(SortMembers(c));
  }
}
