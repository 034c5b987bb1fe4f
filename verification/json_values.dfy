/** Decoding JSON texts into Go maps and encoding them back, as json.Unmarshal and json.Marshal do: the
    last of duplicate members wins, keys are sorted, and every number goes through a double. */
module JsonValues {
  import opened KubeApplier
  import opened Float64s
  import opened Json
  import opened JsonNumbers

  /* ---- Keys in order ---- */

  predicate Before(a: seq<byte>, b: seq<byte>) {
    b != [] && (a == [] || a[0] < b[0] || (a[0] == b[0] && Before(a[1..], b[1..])))
  }

  lemma {:induction false} BeforeIsTotal(a: seq<byte>, b: seq<byte>)
    ensures a == b || Before(a, b) || Before(b, a)
  {
    if a != [] && b != [] && a[0] == b[0] {
      BeforeIsTotal(a[1..], b[1..]);
      assert a == [a[0]] + a[1..] && b == [b[0]] + b[1..];
    }
  }

  lemma {:induction false} BeforeIsStrict(a: seq<byte>, b: seq<byte>)
    requires Before(a, b)
    ensures a != b && !Before(b, a)
  {
    if a != [] && a[0] == b[0] {
      BeforeIsStrict(a[1..], b[1..]);
    }
  }

  lemma {:induction false} BeforeIsTransitive(a: seq<byte>, b: seq<byte>, c: seq<byte>)
    requires Before(a, b) && Before(b, c)
    ensures Before(a, c)
  {
    if a != [] && a[0] == b[0] == c[0] {
      BeforeIsTransitive(a[1..], b[1..], c[1..]);
    }
  }

  predicate IsLeast(k: seq<byte>, s: set<seq<byte>>) {
    k in s && forall o | o in s :: o == k || Before(k, o)
  }

  lemma {:induction false} LeastExists(s: set<seq<byte>>)
    requires s != {}
    ensures exists k :: IsLeast(k, s)
  {
    var some :| some in s;
    if s == {some} {
      assert IsLeast(some, s);
    } else {
      LeastExists(s - {some});
      var k :| IsLeast(k, s - {some});
      BeforeIsTotal(k, some);
      if Before(k, some) {
        assert IsLeast(k, s);
      } else {
        forall o | o in s ensures o == some || Before(some, o) {
          if o != some && o != k { BeforeIsTransitive(some, k, o); }
        }
        assert IsLeast(some, s);
      }
    }
  }

  lemma LeastIsUnique(s: set<seq<byte>>)
    ensures forall k, l | IsLeast(k, s) && IsLeast(l, s) :: k == l
  {
    forall k, l | IsLeast(k, s) && IsLeast(l, s) ensures k == l {
      if k != l { BeforeIsStrict(k, l); }
    }
  }

  /** The keys of a map in the order json.Marshal writes them. */
  function SortedKeys(s: set<seq<byte>>): (keys: seq<seq<byte>>)
    ensures forall k :: k in keys <==> k in s
    ensures forall i, j | 0 <= i < j < |keys| :: Before(keys[i], keys[j])
  {
    if s == {} then []
    else
      LeastExists(s);
      LeastIsUnique(s);
      var k :| IsLeast(k, s);
      [k] + SortedKeys(s - {k})
  }

  /* ---- Decoding and encoding ---- */

  /** A decoded value, as in `any` and `map[string]any`. */
  datatype Value =
    | VNull
    | VBool(b: bool)
    | VNum(n: Float64)
    | VStr(s: seq<byte>)
    | VArr(elems: seq<Value>)
    | VObj(fields: map<seq<byte>, Value>)

  predicate HasDouble(text: seq<byte>) {
    Read(text).Some?
  }

  /** Every number has a double: one that is too large is an error of json.Unmarshal. */
  predicate InRange(t: Text) {
    AllNumbers(t, HasDouble)
  }

  /** json.Unmarshal into `any`: members are stored in order, so the last duplicate wins. */
  function Decode(t: Text): Value {
    match t
    case Null => VNull
    case Bool(b) => VBool(b)
    case Num(text) => VNum(if Read(text).Some? then Read(text).value else Float(false, 0, MIN_EXP))
    case Str(s) => VStr(s)
    case Arr(elems) => VArr(seq(|elems|, i requires 0 <= i < |elems| => Decode(elems[i])))
    case Obj(members) => VObj(DecodeMembers(members))
  }

  function DecodeMembers(members: seq<Member>): map<seq<byte>, Value> {
    if members == [] then map[]
    else
      var last := members[|members| - 1];
      DecodeMembers(members[..|members| - 1])[last.name := Decode(last.value)]
  }

  /** json.Marshal, given how doubles are spelled. */
  function Encode(format: Formatter, v: Value): Text {
    match v
    case VNull => Null
    case VBool(b) => Bool(b)
    case VNum(n) => Num(format(n))
    case VStr(s) => Str(s)
    case VArr(elems) => Arr(seq(|elems|, i requires 0 <= i < |elems| => Encode(format, elems[i])))
    case VObj(fields) =>
      var keys := SortedKeys(fields.Keys);
      Obj(seq(|keys|, i requires 0 <= i < |keys| =>
        assert keys[i] in keys;
        Member(keys[i], Encode(format, fields[keys[i]]))))
  }

  function LastNamed(members: seq<Member>, name: seq<byte>): Option<Text> {
    if members == [] then None
    else if members[|members| - 1].name == name then Some(members[|members| - 1].value)
    else LastNamed(members[..|members| - 1], name)
  }

  /** Decoding an object keeps, for each name, the last member of that name. */
  lemma {:induction false} DecodesLast(members: seq<Member>, name: seq<byte>)
    ensures var m := DecodeMembers(members);
            match LastNamed(members, name)
            case None => name !in m
            case Some(t) => name in m && m[name] == Decode(t)
  {
    if members != [] {
      DecodesLast(members[..|members| - 1], name);
    }
  }

  // With distinct names the member at an index is the last of its name.
  lemma {:induction false} LastOfDistinct(members: seq<Member>, name: seq<byte>)
    requires forall i, j | 0 <= i < j < |members| :: members[i].name != members[j].name
    ensures match LastNamed(members, name)
            case None => forall i | 0 <= i < |members| :: members[i].name != name
            case Some(t) => exists i :: 0 <= i < |members| && members[i] == Member(name, t)
  {
    if members != [] {
      LastOfDistinct(members[..|members| - 1], name);
    }
  }

  // What Encode leaves at a name of an object.
  lemma EncodedMember(format: Formatter, fields: map<seq<byte>, Value>, name: seq<byte>)
    ensures var t := LastNamed(Encode(format, VObj(fields)).members, name);
            t == if name in fields then Some(Encode(format, fields[name])) else None
  {
    var keys := SortedKeys(fields.Keys);
    var members := Encode(format, VObj(fields)).members;
    forall i, j | 0 <= i < j < |members| ensures members[i].name != members[j].name {
      BeforeIsStrict(keys[i], keys[j]);
    }
    LastOfDistinct(members, name);
    if name in fields {
      assert name in keys;
      var i :| 0 <= i < |keys| && keys[i] == name;
      assert members[i].name == name;
    }
  }

  /** Decoding what was encoded gives the value back. */
  lemma {:induction false} DecodeOfEncode(format: Formatter, v: Value)
    requires Faithful(format)
    ensures Decode(Encode(format, v)) == v
    decreases v
  {
    match v
    case VArr(elems) =>
      forall i | 0 <= i < |elems| ensures Decode(Encode(format, elems[i])) == elems[i] {
        DecodeOfEncode(format, elems[i]);
      }
      assert Decode(Encode(format, v)).elems == elems;
    case VObj(fields) =>
      var members := Encode(format, v).members;
      var back := DecodeMembers(members);
      forall name ensures (name in back <==> name in fields) && (name in fields ==> back[name] == fields[name]) {
        DecodesLast(members, name);
        EncodedMember(format, fields, name);
        if name in fields { DecodeOfEncode(format, fields[name]); }
      }
      assert back == fields;
    case _ =>
  }

  /** Every number of an encoded value is one, and has a double. */
  lemma {:induction false} EncodedNumbers(format: Formatter, v: Value)
    requires Faithful(format)
    ensures AllNumbers(Encode(format, v), IsNumber) && InRange(Encode(format, v))
    decreases v
  {
    match v
    case VArr(elems) =>
      forall i | 0 <= i < |elems|
        ensures AllNumbers(Encode(format, elems[i]), IsNumber) && InRange(Encode(format, elems[i]))
      {
        EncodedNumbers(format, elems[i]);
      }
    case VObj(fields) =>
      var keys := SortedKeys(fields.Keys);
      forall i | 0 <= i < |keys|
        ensures keys[i] in fields
        ensures AllNumbers(Encode(format, fields[keys[i]]), IsNumber) && InRange(Encode(format, fields[keys[i]]))
      {
        assert keys[i] in keys;
        EncodedNumbers(format, fields[keys[i]]);
      }
    case _ =>
  }

  /** A text as it reads after one trip through a map. */
  function Normal(format: Formatter, t: Text): Text {
    Encode(format, Decode(t))
  }

  /** A second trip changes nothing. */
  lemma NormalIsIdempotent(format: Formatter, t: Text)
    requires Faithful(format)
    ensures Normal(format, Normal(format, t)) == Normal(format, t)
  {
    DecodeOfEncode(format, Decode(t));
  }
}
