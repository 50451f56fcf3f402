/**
 * The canonical text that the configuration hash is computed over: `json.dumps` with
 * `sort_keys=True` and the separators `","` and `":"`. An object is a Python dict, so its members
 * keep insertion order here; serialisation sorts them by key, which makes the text independent of
 * that order. Escaping of string literals (including the surrounding quotes) is a parameter.
 */
module CanonicalJson {
  import opened Strings
  import opened StringOrder

  datatype Json =
    | JNull
    | JBool(b: bool)
    | JNum(literal: string)
    | JStr(text: string)
    | JArr(items: seq<Json>)
    | JObj(members: seq<Member>)

  datatype Member = Member(key: string, value: Json)

  function Keys(ms: seq<Member>): (ks: seq<string>)
    ensures |ks| == |ms|
    ensures forall i :: 0 <= i < |ms| ==> ks[i] == ms[i].key
  {
    seq(|ms|, i requires 0 <= i < |ms| => ms[i].key)
  }

  function KeySet(ms: seq<Member>): set<string> {
    set k | k in Keys(ms)
  }

  predicate DistinctKeys(ms: seq<Member>) {
    forall i, j :: 0 <= i < j < |ms| ==> ms[i].key != ms[j].key
  }

  predicate SortedByKey(ms: seq<Member>) {
    forall i, j :: 0 <= i < j < |ms| ==> Less(ms[i].key, ms[j].key)
  }

  /** What a Python value can encode to: every dict has distinct keys, at every depth. */
  predicate WellFormed(j: Json)
    decreases j
  {
    match j
    case JArr(items) => forall i :: 0 <= i < |items| ==> WellFormed(items[i])
    case JObj(ms) => DistinctKeys(ms) && forall i :: 0 <= i < |ms| ==> WellFormed(ms[i].value)
    case _ => true
  }

  /** Equal content, where the members of each object may appear in any order. */
  predicate SameUpToKeyOrder(a: Json, b: Json)
    decreases a
  {
    match a
    case JArr(xs) =>
      && b.JArr? && |xs| == |b.items|
      && forall i :: 0 <= i < |xs| ==> SameUpToKeyOrder(xs[i], b.items[i])
    case JObj(xs) =>
      && b.JObj? && KeySet(xs) == KeySet(b.members)
      && forall p, q :: 0 <= p < |xs| && 0 <= q < |b.members| && xs[p].key == b.members[q].key ==>
           SameUpToKeyOrder(xs[p].value, b.members[q].value)
    case _ => a == b
  }

  // ---- Sorting members by key ----

  function Insert(m: Member, sorted: seq<Member>): (r: seq<Member>)
    ensures multiset(r) == multiset(sorted) + multiset{m}
  {
    if |sorted| == 0 || Less(m.key, sorted[0].key) then [m] + sorted
    else
      assert sorted == [sorted[0]] + sorted[1..];
      [sorted[0]] + Insert(m, sorted[1..])
  }

  /** `sorted(d.items())`: the members in ascending key order. */
  function SortByKey(ms: seq<Member>): (r: seq<Member>)
    ensures multiset(r) == multiset(ms)
    ensures forall i :: 0 <= i < |r| ==> r[i] in ms
  {
    if |ms| == 0 then []
    else
      assert ms == [ms[0]] + ms[1..];
      var r := Insert(ms[0], SortByKey(ms[1..]));
      PermutationMembers(r, ms);
      r
  }

  lemma PermutationMembers(r: seq<Member>, ms: seq<Member>)
    requires multiset(r) == multiset(ms)
    ensures forall i :: 0 <= i < |r| ==> r[i] in ms
  {
    forall i | 0 <= i < |r| ensures r[i] in ms {
      assert r[i] in multiset(r);
    }
  }

  // ---- Serialisation ----

  /** `json.dumps(j, sort_keys=True, separators=(",", ":"))`. */
  function Dumps(j: Json, escape: string -> string): (r: string)
    ensures j.JNull? ==> r == "null"
    ensures j.JBool? ==> r == (if j.b then "true" else "false")
    ensures j.JArr? ==> |r| >= 2 && r[0] == '[' && r[|r| - 1] == ']'
    ensures j.JObj? ==> |r| >= 2 && r[0] == '{' && r[|r| - 1] == '}'
    decreases j, 1
  {
    match j
    case JNull => "null"
    case JBool(b) => if b then "true" else "false"
    case JNum(literal) => literal
    case JStr(s) => escape(s)
    case JArr(items) =>
      "[" + Join(",", seq(|items|, i requires 0 <= i < |items| => Dumps(items[i], escape))) + "]"
    case JObj(ms) =>
      "{" + Join(",", Entries(j, SortByKey(ms), escape)) + "}"
  }

  /** The `"key":value` pairs of an object, for members drawn from `parent`. */
  function Entries(ghost parent: Json, members: seq<Member>, escape: string -> string): (r: seq<string>)
    requires parent.JObj? && forall i :: 0 <= i < |members| ==> members[i] in parent.members
    ensures |r| == |members|
    ensures forall i :: 0 <= i < |members| ==> r[i] == Entry(members[i], escape)
    decreases parent, 0
  {
    seq(|members|, i requires 0 <= i < |members| => Entry(members[i], escape))
  }

  /** One `"key":value` pair. */
  function Entry(m: Member, escape: string -> string): string
    decreases m, 2
  {
    escape(m.key) + ":" + Dumps(m.value, escape)
  }

  // ---- Sorting yields the one ascending order of the keys ----

  /** A member below every key of a key-ascending list can go in front of it. */
  lemma ConsSorted(x: Member, rest: seq<Member>)
    requires SortedByKey(rest)
    requires forall k :: 0 <= k < |rest| ==> Less(x.key, rest[k].key)
    ensures SortedByKey([x] + rest)
  {
    var r := [x] + rest;
    forall i, j | 0 <= i < j < |r| ensures Less(r[i].key, r[j].key) {
      assert r[j] == rest[j - 1];
      if i > 0 {
        assert r[i] == rest[i - 1];
      }
    }
  }

  lemma {:induction false} InsertSorted(m: Member, s: seq<Member>)
    requires SortedByKey(s)
    requires m.key !in KeySet(s)
    ensures SortedByKey(Insert(m, s))
  {
    if |s| == 0 || Less(m.key, s[0].key) {
      forall k | 0 <= k < |s| ensures Less(m.key, s[k].key) {
        if k > 0 {
          LessTransitive(m.key, s[0].key, s[k].key);
        }
      }
      ConsSorted(m, s);
    } else {
      assert Keys(s)[0] == s[0].key;
      LessConnected(m.key, s[0].key);
      var tail := s[1..];
      forall k | 0 <= k < |tail| ensures tail[k].key != m.key {
        assert Keys(s)[k + 1] == tail[k].key;
      }
      InsertSorted(m, tail);
      var rest := Insert(m, tail);
      forall k | 0 <= k < |rest| ensures Less(s[0].key, rest[k].key) {
        var x := rest[k];
        assert x in multiset(tail) + multiset{m};
        if x != m {
          assert x in tail;
          var t :| 0 <= t < |tail| && tail[t] == x;
          assert s[t + 1] == x;
        }
      }
      ConsSorted(s[0], rest);
    }
  }

  lemma SameMembersSameKeys(a: seq<Member>, b: seq<Member>)
    requires multiset(a) == multiset(b)
    ensures KeySet(a) == KeySet(b)
  {
    forall k | k in KeySet(a) ensures k in KeySet(b) {
      var i :| 0 <= i < |a| && Keys(a)[i] == k;
      assert a[i] in multiset(b);
      var j :| 0 <= j < |b| && b[j] == a[i];
      assert Keys(b)[j] == k;
    }
    forall k | k in KeySet(b) ensures k in KeySet(a) {
      var j :| 0 <= j < |b| && Keys(b)[j] == k;
      assert b[j] in multiset(a);
      var i :| 0 <= i < |a| && a[i] == b[j];
      assert Keys(a)[i] == k;
    }
  }

  lemma {:induction false} SortByKeySorted(ms: seq<Member>)
    requires DistinctKeys(ms)
    ensures SortedByKey(SortByKey(ms))
  {
    if |ms| > 0 {
      var tail := ms[1..];
      SortByKeySorted(tail);
      SameMembersSameKeys(SortByKey(tail), tail);
      forall k | 0 <= k < |tail| ensures tail[k].key != ms[0].key {
        assert tail[k] == ms[k + 1];
      }
      InsertSorted(ms[0], SortByKey(tail));
    }
  }

  lemma FirstKeyIn(a: seq<Member>)
    requires |a| > 0
    ensures a[0].key in KeySet(a)
  {
    assert Keys(a)[0] == a[0].key;
  }

  /** In a key-ascending list the first key is below every other key. */
  lemma FirstKeyLeast(a: seq<Member>, k: string)
    requires SortedByKey(a) && |a| > 0
    requires k in KeySet(a) && k != a[0].key
    ensures Less(a[0].key, k)
  {
    var p :| 0 <= p < |a| && Keys(a)[p] == k;
  }

  /** Dropping the first member of a key-ascending list drops exactly its key. */
  lemma DropFirstKey(a: seq<Member>)
    requires SortedByKey(a) && |a| > 0
    ensures KeySet(a[1..]) == KeySet(a) - {a[0].key}
  {
    forall i | 0 < i < |a| ensures a[i].key != a[0].key {
      LessIrreflexive(a[0].key);
    }
    KeysCons(a);
  }

  lemma KeysCons(a: seq<Member>)
    requires |a| > 0
    ensures Keys(a) == [a[0].key] + Keys(a[1..])
  {
  }

  /** Sublists of a key-ascending list are key-ascending. */
  lemma SortedTail(a: seq<Member>)
    requires SortedByKey(a) && |a| > 0
    ensures SortedByKey(a[1..])
  {
  }

  /** Two key-ascending member lists with the same keys list those keys identically. */
  lemma {:induction false} SortedKeysUnique(a: seq<Member>, b: seq<Member>)
    requires SortedByKey(a) && SortedByKey(b)
    requires KeySet(a) == KeySet(b)
    ensures Keys(a) == Keys(b)
    decreases |a|
  {
    if |a| == 0 || |b| == 0 {
      if |a| > 0 {
        FirstKeyIn(a);
      }
      if |b| > 0 {
        FirstKeyIn(b);
      }
    } else {
      assert a[0].key in KeySet(b) && b[0].key in KeySet(a);
      if a[0].key != b[0].key {
        FirstKeyLeast(a, b[0].key);
        FirstKeyLeast(b, a[0].key);
        LessAsymmetric(a[0].key, b[0].key);
      }
      DropFirstKey(a);
      DropFirstKey(b);
      SortedTail(a);
      SortedTail(b);
      SortedKeysUnique(a[1..], b[1..]);
      KeysCons(a);
      KeysCons(b);
    }
  }

  // ---- The hash input does not depend on key insertion order ----

  lemma {:induction false} DumpsKeyOrderIndependent(a: Json, b: Json, escape: string -> string)
    requires WellFormed(a) && WellFormed(b)
    requires SameUpToKeyOrder(a, b)
    ensures Dumps(a, escape) == Dumps(b, escape)
    decreases a, 2
  {
    match a
    case JArr(xs) => ArraysAgree(xs, b.items, escape);
    case JObj(xs) => ObjectsAgree(xs, b.members, escape);
    case _ =>
  }

  lemma {:induction false} ArraysAgree(xs: seq<Json>, ys: seq<Json>, escape: string -> string)
    requires WellFormed(JArr(xs)) && WellFormed(JArr(ys))
    requires SameUpToKeyOrder(JArr(xs), JArr(ys))
    ensures Dumps(JArr(xs), escape) == Dumps(JArr(ys), escape)
    decreases JArr(xs), 0
  {
    var ta := seq(|xs|, i requires 0 <= i < |xs| => Dumps(xs[i], escape));
    var tb := seq(|ys|, i requires 0 <= i < |ys| => Dumps(ys[i], escape));
    forall i | 0 <= i < |xs| ensures ta[i] == tb[i] {
      DumpsKeyOrderIndependent(xs[i], ys[i], escape);
    }
    assert ta == tb;
  }

  /** Sorting two objects with the same keys lines their members up key by key. */
  lemma SortingAlignsKeys(xs: seq<Member>, ys: seq<Member>)
    requires DistinctKeys(xs) && DistinctKeys(ys)
    requires KeySet(xs) == KeySet(ys)
    ensures Keys(SortByKey(xs)) == Keys(SortByKey(ys))
  {
    var sa, sb := SortByKey(xs), SortByKey(ys);
    SortByKeySorted(xs);
    SortByKeySorted(ys);
    SameMembersSameKeys(sa, xs);
    SameMembersSameKeys(sb, ys);
    SortedKeysUnique(sa, sb);
  }

  lemma {:induction false} ObjectsAgree(xs: seq<Member>, ys: seq<Member>, escape: string -> string)
    requires WellFormed(JObj(xs)) && WellFormed(JObj(ys))
    requires SameUpToKeyOrder(JObj(xs), JObj(ys))
    ensures Dumps(JObj(xs), escape) == Dumps(JObj(ys), escape)
    decreases JObj(xs), 1
  {
    var sa, sb := SortByKey(xs), SortByKey(ys);
    SortingAlignsKeys(xs, ys);
    var ta, tb := Entries(JObj(xs), sa, escape), Entries(JObj(ys), sb, escape);
    forall i | 0 <= i < |sa| ensures ta[i] == tb[i] {
      EntriesAgree(xs, ys, i, escape);
    }
    assert ta == tb;
  }

  lemma {:induction false} EntriesAgree(xs: seq<Member>, ys: seq<Member>, i: nat, escape: string -> string)
    requires WellFormed(JObj(xs)) && WellFormed(JObj(ys))
    requires SameUpToKeyOrder(JObj(xs), JObj(ys))
    requires Keys(SortByKey(xs)) == Keys(SortByKey(ys))
    requires i < |SortByKey(xs)|
    ensures Entry(SortByKey(xs)[i], escape) == Entry(SortByKey(ys)[i], escape)
    decreases JObj(xs), 0
  {
    var sa, sb := SortByKey(xs), SortByKey(ys);
    assert Keys(sa)[i] == Keys(sb)[i];
    var p :| 0 <= p < |xs| && xs[p] == sa[i];
    var q :| 0 <= q < |ys| && ys[q] == sb[i];
    DumpsKeyOrderIndependent(xs[p].value, ys[q].value, escape);
  }

  // ---- The fixed separators add no whitespace ----

  predicate IsJsonWhitespace(c: char) {
    c == ' ' || c == '\t' || c == '\n' || c == '\r'
  }

  predicate NoWhitespace(s: string) {
    forall i :: 0 <= i < |s| ==> !IsJsonWhitespace(s[i])
  }

  /** Every rendered leaf of `j` (number literal, escaped string, escaped key) is free of whitespace. */
  predicate LeavesWithoutWhitespace(j: Json, escape: string -> string)
    decreases j
  {
    match j
    case JNum(literal) => NoWhitespace(literal)
    case JStr(s) => NoWhitespace(escape(s))
    case JArr(items) => forall i :: 0 <= i < |items| ==> LeavesWithoutWhitespace(items[i], escape)
    case JObj(ms) =>
      forall i :: 0 <= i < |ms| ==>
        NoWhitespace(escape(ms[i].key)) && LeavesWithoutWhitespace(ms[i].value, escape)
    case _ => true
  }

  lemma {:induction false} JoinNoWhitespace(sep: string, parts: seq<string>)
    requires NoWhitespace(sep)
    requires forall i :: 0 <= i < |parts| ==> NoWhitespace(parts[i])
    ensures NoWhitespace(Join(sep, parts))
  {
    if |parts| > 1 {
      JoinNoWhitespace(sep, parts[1..]);
      var rest := Join(sep, parts[1..]);
      var r := parts[0] + sep + rest;
      forall i | 0 <= i < |r| ensures !IsJsonWhitespace(r[i]) {
        if i < |parts[0]| {
          assert r[i] == parts[0][i];
        } else if i < |parts[0]| + |sep| {
          assert r[i] == sep[i - |parts[0]|];
        } else {
          assert r[i] == rest[i - |parts[0]| - |sep|];
        }
      }
    }
  }

  lemma Wrapped(open: char, body: string, close: char)
    requires NoWhitespace(body) && !IsJsonWhitespace(open) && !IsJsonWhitespace(close)
    ensures NoWhitespace([open] + body + [close])
  {
    var r := [open] + body + [close];
    forall i | 0 < i < |r| - 1 ensures !IsJsonWhitespace(r[i]) {
      assert r[i] == body[i - 1];
    }
  }

  /** Unlike the default `", "` and `": "`, the separators contribute no whitespace to the text. */
  lemma {:induction false} DumpsAddsNoWhitespace(j: Json, escape: string -> string)
    requires LeavesWithoutWhitespace(j, escape)
    ensures NoWhitespace(Dumps(j, escape))
    decreases j, 1
  {
    match j
    case JArr(items) => ArrayAddsNoWhitespace(items, escape);
    case JObj(ms) => ObjectAddsNoWhitespace(ms, escape);
    case _ =>
  }

  lemma {:induction false} ArrayAddsNoWhitespace(items: seq<Json>, escape: string -> string)
    requires LeavesWithoutWhitespace(JArr(items), escape)
    ensures NoWhitespace(Dumps(JArr(items), escape))
    decreases JArr(items), 0
  {
    var parts := seq(|items|, i requires 0 <= i < |items| => Dumps(items[i], escape));
    forall i | 0 <= i < |items| ensures NoWhitespace(parts[i]) {
      DumpsAddsNoWhitespace(items[i], escape);
    }
    JoinNoWhitespace(",", parts);
    Wrapped('[', Join(",", parts), ']');
  }

  lemma EntryNoWhitespace(k: string, v: string)
    requires NoWhitespace(k) && NoWhitespace(v)
    ensures NoWhitespace(k + ":" + v)
  {
    var e := k + ":" + v;
    forall t | 0 <= t < |e| ensures !IsJsonWhitespace(e[t]) {
      if t < |k| {
        assert e[t] == k[t];
      } else if t > |k| {
        assert e[t] == v[t - |k| - 1];
      }
    }
  }

  lemma {:induction false} ObjectAddsNoWhitespace(ms: seq<Member>, escape: string -> string)
    requires LeavesWithoutWhitespace(JObj(ms), escape)
    ensures NoWhitespace(Dumps(JObj(ms), escape))
    decreases JObj(ms), 0
  {
    var sorted := SortByKey(ms);
    var parts := Entries(JObj(ms), sorted, escape);
    forall i | 0 <= i < |sorted| ensures NoWhitespace(parts[i]) {
      var p :| 0 <= p < |ms| && ms[p] == sorted[i];
      DumpsAddsNoWhitespace(ms[p].value, escape);
      EntryNoWhitespace(escape(ms[p].key), Dumps(ms[p].value, escape));
    }
    JoinNoWhitespace(",", parts);
    Wrapped('{', Join(",", parts), '}');
  }
}
