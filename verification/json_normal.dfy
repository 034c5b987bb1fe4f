/** What one trip through Go maps and doubles makes of a JSON text, and which texts it leaves alone. */
module JsonNormal {
  import opened KubeApplier
  import opened Float64s
  import opened Json
  import opened JsonNumbers
  import opened JsonValues

  /* ---- The value at every path ---- */

  datatype Step = Field(name: seq<byte>) | Elem(index: nat)

  /** The text at a path, as a reader that lets the last duplicate win finds it. */
  function Resolve(t: Text, path: seq<Step>): Option<Text>
    decreases path
  {
    if path == [] then Some(t)
    else
      match path[0]
      case Field(name) =>
        if !t.Obj? then None
        else
          var v := LastNamed(t.members, name);
          if v.None? then None else Resolve(v.value, path[1..])
      case Elem(i) => if !t.Arr? || i >= |t.elems| then None else Resolve(t.elems[i], path[1..])
  }

  /** What stands there: a number by its double, another scalar, an array of some length, or an object
      with some names. */
  datatype Shape =
    | Number(double: Option<Float64>)
    | Scalar(t: Text)
    | ArrayOf(length: nat)
    | ObjectOf(names: set<seq<byte>>)

  function ShapeOf(t: Text): Shape {
    match t
    case Num(text) => Number(Read(text))
    case Arr(elems) => ArrayOf(|elems|)
    case Obj(members) => ObjectOf(set m | m in members :: m.name)
    case _ => Scalar(t)
  }

  function ShapeAt(t: Text, path: seq<Step>): Option<Shape> {
    var r := Resolve(t, path);
    if r.None? then None else Some(ShapeOf(r.value))
  }

  lemma {:induction false} NormalResolves(format: Formatter, t: Text, path: seq<Step>)
    ensures var r := Resolve(t, path);
            Resolve(Normal(format, t), path) == if r.None? then None else Some(Normal(format, r.value))
    decreases path
  {
    if path != [] {
      match path[0]
      case Field(name) =>
        if t.Obj? {
          var v := LastNamed(t.members, name);
          DecodesLast(t.members, name);
          EncodedMember(format, Decode(t).fields, name);
          if v.Some? { NormalResolves(format, v.value, path[1..]); }
        }
      case Elem(i) =>
        if t.Arr? && i < |t.elems| {
          NormalResolves(format, t.elems[i], path[1..]);
        }
    }
  }

  lemma {:induction false} LastNamedInRange(members: seq<Member>, name: seq<byte>)
    requires InRange(Obj(members)) && LastNamed(members, name).Some?
    ensures InRange(LastNamed(members, name).value)
  {
    if members[|members| - 1].name != name {
      LastNamedInRange(members[..|members| - 1], name);
    }
  }

  lemma {:induction false} ResolvedInRange(t: Text, path: seq<Step>)
    requires InRange(t) && Resolve(t, path).Some?
    ensures InRange(Resolve(t, path).value)
    decreases path
  {
    if path != [] {
      match path[0]
      case Field(name) =>
        LastNamedInRange(t.members, name);
        ResolvedInRange(LastNamed(t.members, name).value, path[1..]);
      case Elem(i) => ResolvedInRange(t.elems[i], path[1..]);
    }
  }

  lemma {:induction false} DecodedNames(members: seq<Member>)
    ensures DecodeMembers(members).Keys == set m | m in members :: m.name
  {
    if members != [] {
      var init, last := members[..|members| - 1], members[|members| - 1];
      DecodedNames(init);
      assert forall m :: m in members <==> m in init || m == last;
    }
  }

  lemma NormalKeepsShape(format: Formatter, t: Text)
    requires Faithful(format) && InRange(t)
    ensures ShapeOf(Normal(format, t)) == ShapeOf(t)
  {
    if t.Obj? {
      DecodedNames(t.members);
      DecodedNames(Normal(format, t).members);
      DecodeOfEncode(format, Decode(t));
    }
  }

  /** One trip keeps the value at every path, numbers as the doubles they are read as. */
  lemma NormalKeepsEveryPath(format: Formatter, t: Text, path: seq<Step>)
    requires Faithful(format) && InRange(t)
    ensures ShapeAt(Normal(format, t), path) == ShapeAt(t, path)
  {
    NormalResolves(format, t, path);
    var r := Resolve(t, path);
    if r.Some? {
      ResolvedInRange(t, path);
      NormalKeepsShape(format, r.value);
    }
  }

  lemma {:induction false} InRangeNumbers(t: Text)
    requires InRange(t)
    ensures AllNumbers(t, IsNumber)
  {
    match t
    case Arr(elems) =>
      forall i | 0 <= i < |elems| ensures AllNumbers(elems[i], IsNumber) { InRangeNumbers(elems[i]); }
    case Obj(members) =>
      forall i | 0 <= i < |members| ensures AllNumbers(members[i].value, IsNumber) { InRangeNumbers(members[i].value); }
    case _ =>
  }

  /* ---- Which texts are left alone ---- */

  predicate Increasing(members: seq<Member>) {
    forall i, j | 0 <= i < j < |members| :: Before(members[i].name, members[j].name)
  }

  /** Every object lists its members by rising name, as json.Marshal does. */
  predicate Sorted(t: Text) {
    match t
    case Arr(elems) => forall i | 0 <= i < |elems| :: Sorted(elems[i])
    case Obj(members) => Increasing(members) && forall i | 0 <= i < |members| :: Sorted(members[i].value)
    case _ => true
  }

  /** Every number is spelled as json.Marshal spells its double. */
  predicate OwnSpelling(format: Formatter, t: Text) {
    AllNumbers(t, text => Survives(format, text))
  }

  // The sorted keys of a set of strictly rising names are those names.
  lemma {:induction false} SortedKeysOf(names: seq<seq<byte>>, s: set<seq<byte>>)
    requires (forall i, j | 0 <= i < j < |names| :: Before(names[i], names[j])) && forall k :: k in s <==> k in names
    ensures SortedKeys(s) == names
    decreases names
  {
    if names != [] {
      var k, more := names[0], names[1..];
      assert k in s;
      LeastIsUnique(s);
      assert IsLeast(k, s) by {
        forall o | o in s ensures o == k || Before(k, o) {
          var i :| 0 <= i < |names| && names[i] == o;
        }
      }
      forall o ensures o in s - {k} <==> o in more {
        if o in more {
          var i :| 0 <= i < |more| && more[i] == o;
          assert more[i] == names[i + 1];
          BeforeIsStrict(names[0], names[i + 1]);
        } else if o in s {
          var i :| 0 <= i < |names| && names[i] == o;
          assert i > 0 ==> more[i - 1] == o;
        }
      }
      SortedKeysOf(more, s - {k});
    } else {
      assert s == {};
    }
  }

  // Among rising names each is the last of its name.
  lemma LastOfIncreasing(members: seq<Member>, i: nat)
    requires Increasing(members) && i < |members|
    ensures LastNamed(members, members[i].name) == Some(members[i].value)
  {
    forall j, k | 0 <= j < k < |members| ensures members[j].name != members[k].name {
      BeforeIsStrict(members[j].name, members[k].name);
    }
    LastOfDistinct(members, members[i].name);
  }

  function Names(members: seq<Member>): seq<seq<byte>> {
    seq(|members|, i requires 0 <= i < |members| => members[i].name)
  }

  lemma NamesAreKeys(members: seq<Member>, k: seq<byte>)
    ensures k in DecodeMembers(members).Keys <==> k in Names(members)
  {
    DecodedNames(members);
    if k in Names(members) {
      var i :| 0 <= i < |members| && Names(members)[i] == k;
      assert members[i] in members;
    }
    forall i | 0 <= i < |members| ensures members[i].name in Names(members) {
      assert Names(members)[i] == members[i].name;
    }
  }

  lemma KeysOfIncreasing(members: seq<Member>)
    requires Increasing(members)
    ensures SortedKeys(DecodeMembers(members).Keys) == Names(members)
  {
    forall k ensures k in DecodeMembers(members).Keys <==> k in Names(members) { NamesAreKeys(members, k); }
    SortedKeysOf(Names(members), DecodeMembers(members).Keys);
  }

  lemma FieldOfIncreasing(members: seq<Member>, i: nat)
    requires Increasing(members) && i < |members|
    ensures members[i].name in DecodeMembers(members)
    ensures DecodeMembers(members)[members[i].name] == Decode(members[i].value)
  {
    LastOfIncreasing(members, i);
    DecodesLast(members, members[i].name);
  }

  // A sorted object keeps its members in place, each normalised.
  lemma NormalOfIncreasing(format: Formatter, members: seq<Member>)
    requires Increasing(members)
    ensures var ms := Normal(format, Obj(members)).members;
            && |ms| == |members|
            && forall i | 0 <= i < |ms| :: ms[i] == Member(members[i].name, Normal(format, members[i].value))
  {
    KeysOfIncreasing(members);
    forall i | 0 <= i < |members|
      ensures members[i].name in DecodeMembers(members)
      ensures DecodeMembers(members)[members[i].name] == Decode(members[i].value)
    {
      FieldOfIncreasing(members, i);
    }
  }

  lemma NormalOfOne(format: Formatter, m: Member)
    ensures Normal(format, Obj([m])) == Obj([Member(m.name, Normal(format, m.value))])
  {
    NormalOfIncreasing(format, [m]);
    var ms := Normal(format, Obj([m])).members;
    assert ms == [ms[0]];
  }

  lemma NormalOfNumber(format: Formatter, text: seq<byte>)
    requires HasDouble(text)
    ensures Normal(format, Num(text)) == Num(format(Read(text).value))
  {
  }

  lemma NormalIsIncreasing(format: Formatter, members: seq<Member>)
    ensures Increasing(Normal(format, Obj(members)).members)
  {
  }

  /** One trip leaves a text alone if and only if its objects are sorted, without duplicates, and every
      number is spelled as json.Marshal spells the double it is read as. */
  lemma {:induction false} LeftAloneIff(format: Formatter, t: Text)
    requires Faithful(format) && InRange(t)
    ensures Normal(format, t) == t <==> Sorted(t) && OwnSpelling(format, t)
  {
    match t
    case Arr(elems) =>
      forall i | 0 <= i < |elems|
        ensures Normal(format, elems[i]) == elems[i] <==> Sorted(elems[i]) && OwnSpelling(format, elems[i])
      {
        LeftAloneIff(format, elems[i]);
      }
      ArrayLeftAlone(format, elems);
    case Obj(members) =>
      NormalIsIncreasing(format, members);
      if Increasing(members) {
        NormalOfIncreasing(format, members);
        forall i | 0 <= i < |members|
          ensures Normal(format, members[i].value) == members[i].value <==>
                  Sorted(members[i].value) && OwnSpelling(format, members[i].value)
        {
          LeftAloneIff(format, members[i].value);
        }
        ObjectLeftAlone(format, members);
      }
    case _ =>
  }

  lemma ArrayLeftAlone(format: Formatter, elems: seq<Text>)
    ensures Normal(format, Arr(elems)) == Arr(elems) <==>
            forall i | 0 <= i < |elems| :: Normal(format, elems[i]) == elems[i]
  {
    var ns := Normal(format, Arr(elems)).elems;
    assert |ns| == |elems| && forall i | 0 <= i < |ns| :: ns[i] == Normal(format, elems[i]);
  }

  lemma ObjectLeftAlone(format: Formatter, members: seq<Member>)
    requires Increasing(members)
    ensures Normal(format, Obj(members)) == Obj(members) <==>
            forall i | 0 <= i < |members| :: Normal(format, members[i].value) == members[i].value
  {
    NormalOfIncreasing(format, members);
    var ms := Normal(format, Obj(members)).members;
    if forall i | 0 <= i < |members| :: Normal(format, members[i].value) == members[i].value {
      assert ms == members;
    } else {
      var i :| 0 <= i < |members| && Normal(format, members[i].value) != members[i].value;
      assert ms[i] != members[i];
    }
  }
}
