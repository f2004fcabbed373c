/**
 JSON documents (RFC 8259). `Raw` is a document as it was written: members of an
 object are ordered and may repeat a name. `Json` is the tree the decoder builds:
 an object is a map (section 4 of RFC 8259: unordered, last duplicate wins in the
 decoder the operator uses), numbers are already rounded.
 */
module Json {

  datatype Raw =
    | RNull
    | RBool(b: bool)
    | RNum(n: real)
    | RStr(s: string)
    | RArr(elems: seq<Raw>)
    | RObj(members: seq<Member>)

  datatype Member = Member(name: string, value: Raw)

  datatype Json =
    | JNull
    | JBool(b: bool)
    | JNum(n: real)
    | JStr(s: string)
    | JArr(elems: seq<Json>)
    | JObj(fields: map<string, Json>)

  function Decode(r: Raw): Json
    decreases r
  {
    match r
    case RNull => JNull
    case RBool(b) => JBool(b)
    case RNum(n) => JNum(n)
    case RStr(s) => JStr(s)
    case RArr(elems) => JArr(seq(|elems|, i requires 0 <= i < |elems| => Decode(elems[i])))
    case RObj(members) => JObj(DecodeMembers(members))
  }

  function DecodeMembers(ms: seq<Member>): map<string, Json>
    decreases ms
  {
    if ms == [] then map[]
    else
      var last := ms[|ms| - 1];
      DecodeMembers(ms[..|ms| - 1])[last.name := Decode(last.value)]
  }

  /** No object of the document, at any depth, repeats a name. */
  predicate UniqueNames(r: Raw) {
    match r
    case RArr(elems) => forall i | 0 <= i < |elems| :: UniqueNames(elems[i])
    case RObj(ms) =>
      && DistinctNames(ms)
      && forall i | 0 <= i < |ms| :: UniqueNames(ms[i].value)
    case _ => true
  }

  predicate DistinctNames(ms: seq<Member>) {
    forall i, j | 0 <= i < j < |ms| :: ms[i].name != ms[j].name
  }

  function Names(ms: seq<Member>): set<string> {
    set i | 0 <= i < |ms| :: ms[i].name
  }

  /** The two documents differ at most in the order of object members, at any depth. */
  ghost predicate SameUpToOrder(a: Raw, b: Raw)
    decreases a
  {
    match a
    case RArr(xs) => b.RArr? && SameElements(xs, b.elems)
    case RObj(xs) => b.RObj? && Names(xs) == Names(b.members) && SameMembers(xs, b.members)
    case _ => a == b
  }

  ghost predicate SameElements(xs: seq<Raw>, ys: seq<Raw>)
    decreases xs
  {
    |xs| == |ys| && forall i | 0 <= i < |xs| :: SameUpToOrder(xs[i], ys[i])
  }

  /** Members written under one name on both sides carry equivalent values. */
  ghost predicate SameMembers(xs: seq<Member>, ys: seq<Member>)
    decreases xs
  {
    forall i, j | 0 <= i < |xs| && 0 <= j < |ys| && xs[i].name == ys[j].name :: SameUpToOrder(xs[i].value, ys[j].value)
  }

  /** The decoded object has exactly the written names; a name written once keeps its value. */
  lemma {:induction false} DecodedMember(ms: seq<Member>)
    ensures DecodeMembers(ms).Keys == Names(ms)
    ensures DistinctNames(ms) ==>
              forall i | 0 <= i < |ms| :: DecodeMembers(ms)[ms[i].name] == Decode(ms[i].value)
  {
    if ms != [] {
      var init, last := ms[..|ms| - 1], ms[|ms| - 1];
      DecodedMember(init);
      LastName(ms);
      assert DecodeMembers(ms) == DecodeMembers(init)[last.name := Decode(last.value)];
      assert forall i | 0 <= i < |init| :: init[i] == ms[i];
    }
  }

  lemma LastName(ms: seq<Member>)
    requires ms != []
    ensures Names(ms) == Names(ms[..|ms| - 1]) + {ms[|ms| - 1].name}
  {
    var init, last := ms[..|ms| - 1], ms[|ms| - 1];
    forall k | k in Names(ms) ensures k in Names(init) + {last.name} {
      var i :| 0 <= i < |ms| && ms[i].name == k;
      if i < |init| { assert init[i].name == k; }
    }
    forall k | k in Names(init) ensures k in Names(ms) {
      var i :| 0 <= i < |init| && init[i].name == k;
      assert ms[i].name == k;
    }
  }

  /** Decoding forgets member order and nothing else. */
  lemma {:induction false} DecodeIsOrderBlind(a: Raw, b: Raw)
    requires UniqueNames(a) && UniqueNames(b)
    ensures Decode(a) == Decode(b) <==> SameUpToOrder(a, b)
    decreases a
  {
    match a
    case RArr(xs) =>
      if b.RArr? {
        var da, db := Decode(a).elems, Decode(b).elems;
        if |xs| == |b.elems| {
          forall i | 0 <= i < |xs|
            ensures da[i] == db[i] <==> SameUpToOrder(xs[i], b.elems[i])
          {
            DecodeIsOrderBlind(xs[i], b.elems[i]);
          }
          assert da == db <==> forall i | 0 <= i < |xs| :: da[i] == db[i];
        } else {
          assert |da| != |db|;
        }
      }
    case RObj(xs) =>
      if b.RObj? {
        ObjectsAreOrderBlind(xs, b.members);
      }
    case _ =>
  }

  lemma {:induction false} ObjectsAreOrderBlind(xs: seq<Member>, ys: seq<Member>)
    requires UniqueNames(RObj(xs)) && UniqueNames(RObj(ys))
    ensures DecodeMembers(xs) == DecodeMembers(ys) <==> Names(xs) == Names(ys) && SameMembers(xs, ys)
    decreases xs
  {
    DecodedMember(xs);
    DecodedMember(ys);
    var dx, dy := DecodeMembers(xs), DecodeMembers(ys);
    forall i, j | 0 <= i < |xs| && 0 <= j < |ys| && xs[i].name == ys[j].name
      ensures dx[xs[i].name] == dy[xs[i].name] <==> SameUpToOrder(xs[i].value, ys[j].value)
    {
      DecodeIsOrderBlind(xs[i].value, ys[j].value);
    }
    if Names(xs) == Names(ys) && SameMembers(xs, ys) {
      forall k | k in dx
        ensures dx[k] == dy[k]
      {
        var i :| 0 <= i < |xs| && xs[i].name == k;
        assert k in Names(ys);
        var j :| 0 <= j < |ys| && ys[j].name == k;
      }
      assert dx == dy;
    }
  }

  /** Of several members under one name the last one counts, and no other name gets in. */
  lemma {:induction false} LastDuplicateWins(ms: seq<Member>, i: nat)
    requires i < |ms| && forall j | i < j < |ms| :: ms[j].name != ms[i].name
    ensures ms[i].name in DecodeMembers(ms) && DecodeMembers(ms)[ms[i].name] == Decode(ms[i].value)
    decreases |ms|
  {
    var n := |ms| - 1;
    var init := ms[..n];
    assert DecodeMembers(ms) == DecodeMembers(init)[ms[n].name := Decode(ms[n].value)];
    if i < n {
      assert init[i] == ms[i];
      assert forall j | i < j < n :: init[j].name == ms[j].name;
      LastDuplicateWins(init, i);
      assert ms[n].name != ms[i].name;
    }
  }

  /** Values decode to themselves, lists element by element and in order. */
  lemma DecodedShapes(b: bool, n: real, s: string, elems: seq<Raw>, i: nat)
    requires i < |elems|
    ensures Decode(RNull) == JNull && Decode(RBool(b)) == JBool(b) && Decode(RNum(n)) == JNum(n) && Decode(RStr(s)) == JStr(s)
    ensures Decode(RArr(elems)).JArr? && |Decode(RArr(elems)).elems| == |elems| && Decode(RArr(elems)).elems[i] == Decode(elems[i])
  {
  }
}
