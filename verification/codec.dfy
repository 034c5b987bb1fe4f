/** How a desire becomes a Firestore document and back (internal/database/rawext_codec.go and the
    Create and Replace of internal/database/crud.go). */
module DocumentCodec {
  import opened KubeApplier
  import opened Float64s
  import opened Json
  import opened JsonNumbers
  import opened JsonLexer
  import opened JsonValues
  import opened JsonNormal

  datatype Kind = ApplyKind | DeleteKind | ReadKind

  /** A document field: a spec or status as the struct codec stores it, or a plain value. */
  datatype Field =
    | SpecField(spec: Spec)
    | StatusField(conditions: seq<Condition>, observed: nat, generation: int)
    | Plain(v: Value)

  type Document = map<string, Field>

  const SPEC := "spec"
  const STATUS := "status"
  const SPEC_KUBE := "spec_kubeContent"
  const STATUS_KUBE := "status_kubeContent"

  /** json.Marshal to bytes. */
  function Marshal(format: Formatter, v: Value): seq<byte> {
    SpellText(Encode(format, v))
  }

  lemma MarshalUnmarshals(format: Formatter, v: Value)
    requires Faithful(format)
    ensures Unmarshal(Marshal(format, v)) == Some(Encode(format, v)) && Marshal(format, v) != []
    ensures InRange(Encode(format, v))
  {
    EncodedNumbers(format, v);
    UnmarshalUndoesSpell(Encode(format, v));
  }

  /* ---- rawext_codec.go ---- */

  /** What json.Unmarshal into a map accepts: an object or null, with no number too large. */
  predicate FitsMap(t: Text) {
    (t.Obj? || t.Null?) && InRange(t)
  }

  /** rawExtToMap; the nil map is stored as null. None is an error. */
  function RawExtToMap(raw: seq<byte>): Option<Value> {
    if raw == [] then Some(VNull)
    else
      match Unmarshal(raw)
      case None => None
      case Some(t) => if FitsMap(t) then Some(Decode(t)) else None
  }

  function MapToRawExt(format: Formatter, v: Value): Option<seq<byte>> {
    if v == VNull then None else Some(Marshal(format, v))
  }

  function SpecKube(kind: Kind, b: Body): Option<seq<byte>> {
    if kind == ApplyKind then b.specKubeContent else None
  }

  function StatusKube(kind: Kind, b: Body): Option<seq<byte>> {
    if kind == ReadKind then b.statusKubeContent else None
  }

  /** A field update by path; no value deletes the field. */
  datatype Update = Update(path: string, value: Option<Field>)

  /** What one KubeContent field becomes: nothing, or a plain value; or an error. */
  function KubeField(ext: Option<seq<byte>>): Option<Option<Field>> {
    match ext
    case None => Some(None)
    case Some(raw) =>
      match RawExtToMap(raw)
      case None => None
      case Some(v) => Some(Some(Plain(v)))
  }

  method KubeContentWriteUpdates(kind: Kind, b: Body) returns (updates: Option<seq<Update>>)
    ensures updates == var s, t := KubeField(SpecKube(kind, b)), KubeField(StatusKube(kind, b));
                       if s.None? || t.None? then None
                       else Some([Update(SPEC_KUBE, s.value), Update(STATUS_KUBE, t.value)])
  {
    var list := [];
    var spec := SpecKube(kind, b);
    if spec.Some? {
      var m := RawExtToMap(spec.value);
      if m.None? {
        return None;
      }
      list := list + [Update(SPEC_KUBE, Some(Plain(m.value)))];
    } else {
      list := list + [Update(SPEC_KUBE, None)];
    }
    var status := StatusKube(kind, b);
    if status.Some? {
      var m := RawExtToMap(status.value);
      if m.None? {
        return None;
      }
      list := list + [Update(STATUS_KUBE, Some(Plain(m.value)))];
    } else {
      list := list + [Update(STATUS_KUBE, None)];
    }
    assert list == [list[0], list[1]];
    return Some(list);
  }

  method KubeContentWriteMap(kind: Kind, b: Body) returns (result: Option<Document>)
    ensures result == var s, t := KubeField(SpecKube(kind, b)), KubeField(StatusKube(kind, b));
                      if s.None? || t.None? then None else Some(Entry(SPEC_KUBE, s.value) + Entry(STATUS_KUBE, t.value))
  {
    var m: Document := map[];
    var spec := SpecKube(kind, b);
    if spec.Some? {
      var v := RawExtToMap(spec.value);
      if v.None? {
        return None;
      }
      m := m[SPEC_KUBE := Plain(v.value)];
    }
    var status := StatusKube(kind, b);
    if status.Some? {
      var v := RawExtToMap(status.value);
      if v.None? {
        return None;
      }
      m := m[STATUS_KUBE := Plain(v.value)];
    }
    FieldNames();
    ghost var s, t := KubeField(spec), KubeField(status);
    assert m == Entry(SPEC_KUBE, s.value) + Entry(STATUS_KUBE, t.value);
    return Some(m);
  }

  function Entry(name: string, value: Option<Field>): Document {
    if value.None? then map[] else map[name := value.value]
  }

  /* ---- crud.go ---- */

  function StatusOf(b: Body): Field {
    StatusField(b.conditions, b.observed, b.generation)
  }

  /** The document Create writes. */
  function FullDocument(kind: Kind, b: Body): Option<Document> {
    var s, t := KubeField(SpecKube(kind, b)), KubeField(StatusKube(kind, b));
    if s.None? || t.None? then None
    else Some(Fields(b, s.value, t.value))
  }

  method ToFirestoreMap(kind: Kind, b: Body) returns (data: Option<Document>)
    ensures data == FullDocument(kind, b)
  {
    var m: Document := map[SPEC := SpecField(b.spec), STATUS := StatusOf(b)];
    var kubeFields := KubeContentWriteMap(kind, b);
    if kubeFields.None? {
      return None;
    }
    m := Merge(m, kubeFields.value);
    return Some(m);
  }

  // The range loop of toFirestoreMap.
  method Merge(base: Document, extra: Document) returns (data: Document)
    ensures data == base + extra
  {
    data := base;
    var left := extra.Keys;
    while left != {}
      invariant left <= extra.Keys
      invariant data.Keys == base.Keys + (extra.Keys - left)
      invariant forall k | k in data :: data[k] == if k in extra && k !in left then extra[k] else base[k]
      decreases |left|
    {
      var k :| k in left;
      data := data[k := extra[k]];
      left := left - {k};
    }
  }

  /** What Firestore's Update does with a list of path updates. */
  function ApplyUpdate(doc: Document, u: Update): Document {
    if u.value.None? then doc - {u.path} else doc[u.path := u.value.value]
  }

  function ApplyUpdates(doc: Document, us: seq<Update>): Document
    decreases us
  {
    if us == [] then doc else ApplyUpdates(ApplyUpdate(doc, us[0]), us[1..])
  }

  /** The updates Replace sends. */
  method ReplaceUpdates(kind: Kind, b: Body) returns (updates: Option<seq<Update>>)
    ensures updates.None? <==> FullDocument(kind, b).None?
    ensures updates.Some? ==>
              forall doc :: ApplyUpdates(doc, updates.value) == Replaced(doc, FullDocument(kind, b).value)
  {
    var list := [Update(SPEC, Some(SpecField(b.spec))), Update(STATUS, Some(StatusOf(b)))];
    var kubeUpdates := KubeContentWriteUpdates(kind, b);
    if kubeUpdates.None? {
      return None;
    }
    var s, t := kubeUpdates.value[0].value, kubeUpdates.value[1].value;
    forall doc ensures ApplyUpdates(doc, list + kubeUpdates.value) == Replaced(doc, FullDocument(kind, b).value) {
      UpdatesReplace(doc, b, s, t);
    }
    return Some(list + kubeUpdates.value);
  }

  const OURS := {SPEC, STATUS, SPEC_KUBE, STATUS_KUBE}

  /** A stored document with our four fields exactly as in `full` and all others untouched. */
  function Replaced(doc: Document, full: Document): Document {
    (doc - OURS) + full
  }

  lemma FieldNames()
    ensures SPEC != STATUS && SPEC != SPEC_KUBE && SPEC != STATUS_KUBE
    ensures STATUS != SPEC_KUBE && STATUS != STATUS_KUBE && SPEC_KUBE != STATUS_KUBE
    ensures SPEC == "spec" && STATUS == "status"
    ensures SPEC_KUBE == "spec_kubeContent" && STATUS_KUBE == "status_kubeContent"
  {
    assert |SPEC| == 4 && |STATUS| == 6 && |SPEC_KUBE| == 16 && |STATUS_KUBE| == 18;
  }

  lemma FourUpdates(doc: Document, a: Update, b: Update, c: Update, d: Update)
    ensures ApplyUpdates(doc, [a, b, c, d]) == ApplyUpdate(ApplyUpdate(ApplyUpdate(ApplyUpdate(doc, a), b), c), d)
  {
    var d1 := ApplyUpdate(doc, a);
    var d2 := ApplyUpdate(d1, b);
    var d3 := ApplyUpdate(d2, c);
    UpdatesCons(doc, a, [b, c, d]);
    UpdatesCons(d1, b, [c, d]);
    UpdatesCons(d2, c, [d]);
    UpdatesCons(d3, d, []);
    assert [a, b, c, d] == [a] + [b, c, d] && [b, c, d] == [b] + [c, d] && [c, d] == [c] + [d] && [d] == [d] + [];
  }

  lemma UpdatesCons(doc: Document, u: Update, us: seq<Update>)
    ensures ApplyUpdates(doc, [u] + us) == ApplyUpdates(ApplyUpdate(doc, u), us)
  {
    assert ([u] + us)[1..] == us;
  }

  // Our four fields, given what becomes of the two KubeContents.
  function Fields(b: Body, s: Option<Field>, t: Option<Field>): Document {
    map[SPEC := SpecField(b.spec), STATUS := StatusOf(b)] + (Entry(SPEC_KUBE, s) + Entry(STATUS_KUBE, t))
  }

  function FieldUpdates(b: Body, s: Option<Field>, t: Option<Field>): seq<Update> {
    [Update(SPEC, Some(SpecField(b.spec))), Update(STATUS, Some(StatusOf(b))),
     Update(SPEC_KUBE, s), Update(STATUS_KUBE, t)]
  }

  lemma UpdatesReplace(doc: Document, b: Body, s: Option<Field>, t: Option<Field>)
    ensures ApplyUpdates(doc, FieldUpdates(b, s, t)) == Replaced(doc, Fields(b, s, t))
  {
    FieldNames();
    var us := FieldUpdates(b, s, t);
    FourUpdates(doc, us[0], us[1], us[2], us[3]);
    var got, want := ApplyUpdates(doc, us), Replaced(doc, Fields(b, s, t));
    forall k ensures (k in got <==> k in want) && (k in got ==> got[k] == want[k]) {}
  }

  // What a document that can be written holds for some content: nothing for none, null for empty content,
  // and else the decoded value.
  ghost predicate StoredAs(doc: Document, name: string, content: Option<seq<byte>>) {
    match content
    case None => name !in doc
    case Some(raw) =>
      && name in doc
      && (raw == [] ==> doc[name] == Plain(VNull))
      && (raw != [] ==> Unmarshal(raw).Some? && doc[name] == Plain(Decode(Unmarshal(raw).value)))
  }

  /** What is stored for each kind. A document of an ApplyDesire holds the spec's content and no other, one
      of a ReadDesire the status's and no other, one of a DeleteDesire none; every document holds the spec
      and the status under their names, and no further field. */
  lemma WhatIsStored(kind: Kind, b: Body)
    requires FullDocument(kind, b).Some?
    ensures var doc := FullDocument(kind, b).value;
            && StoredAs(doc, "spec_kubeContent", if kind == ApplyKind then b.specKubeContent else None)
            && StoredAs(doc, "status_kubeContent", if kind == ReadKind then b.statusKubeContent else None)
            && "spec" in doc && doc["spec"] == SpecField(b.spec)
            && "status" in doc && doc["status"] == StatusField(b.conditions, b.observed, b.generation)
            && doc.Keys <= {"spec", "status", "spec_kubeContent", "status_kubeContent"}
  {
    FieldNames();
    KindContents(kind, b);
    FieldOf(if kind == ApplyKind then b.specKubeContent else None);
    FieldOf(if kind == ReadKind then b.statusKubeContent else None);
  }

  // Which content a kind has.
  lemma KindContents(kind: Kind, b: Body)
    ensures SpecKube(kind, b) == if kind == ApplyKind then b.specKubeContent else None
    ensures StatusKube(kind, b) == if kind == ReadKind then b.statusKubeContent else None
  {
  }

  lemma FieldOf(content: Option<seq<byte>>)
    ensures var f := KubeField(content);
            && (content == None ==> f == Some(None))
            && (content == Some([]) ==> f == Some(Some(Plain(VNull))))
            && (content.Some? && content.value != [] && f.Some? ==>
                  && Unmarshal(content.value).Some?
                  && f == Some(Some(Plain(Decode(Unmarshal(content.value).value)))))
  {
  }

  /** Field-path Replace equals full overwrite exactly on documents with no field besides these four. */
  lemma ReplaceIsOverwrite(kind: Kind, b: Body, doc: Document)
    requires FullDocument(kind, b).Some?
    ensures var full := FullDocument(kind, b).value;
            Replaced(doc, full) == full <==> doc.Keys <= OURS
  {
    var full := FullDocument(kind, b).value;
    if !(doc.Keys <= OURS) {
      var k :| k in doc && k !in OURS;
      assert k in Replaced(doc, full) && k !in full;
    }
  }

  /* ---- Reading back ---- */

  /** snapshotToDesire: DataTo for spec and status, then kubeContentReadFromSnapshot. */
  function ReadBack(format: Formatter, kind: Kind, doc: Document): Option<Body> {
    if (SPEC in doc && !doc[SPEC].SpecField?) || (STATUS in doc && !doc[STATUS].StatusField?) then None
    else
      var spec := if SPEC in doc then doc[SPEC].spec else ZeroBody.spec;
      var st := if STATUS in doc then doc[STATUS] else StatusField([], 0, 0);
      var s, t := KubeAt(format, doc, SPEC_KUBE), KubeAt(format, doc, STATUS_KUBE);
      if s.None? || t.None? then None
      else
        Some(Body(spec, if kind == ApplyKind then s.value else None, st.conditions, st.observed, st.generation,
          if kind == ReadKind then t.value else None))
  }

  function KubeAt(format: Formatter, doc: Document, name: string): Option<Option<seq<byte>>> {
    if name !in doc then Some(None)
    else if !doc[name].Plain? then None
    else Some(MapToRawExt(format, doc[name].v))
  }

  /** A desire of this kind: a KubeContent only where the kind has one. */
  predicate OfKind(kind: Kind, b: Body) {
    && (kind != ApplyKind ==> b.specKubeContent == None)
    && (kind != ReadKind ==> b.statusKubeContent == None)
  }

  /** KubeContent after a trip: absent, empty and null become absent, other bytes are respelled. */
  function NormalRaw(format: Formatter, ext: Option<seq<byte>>): Option<seq<byte>> {
    match ext
    case None => None
    case Some(raw) =>
      match RawExtToMap(raw)
      case None => None
      case Some(v) => MapToRawExt(format, v)
  }

  function NormalBody(format: Formatter, b: Body): Body {
    b.(specKubeContent := NormalRaw(format, b.specKubeContent),
        statusKubeContent := NormalRaw(format, b.statusKubeContent))
  }

  /** Reading back what Create wrote, or what Replace made of any document whatever, restores the
      desire up to the spelling of its KubeContent. */
  lemma ReadingRestores(format: Formatter, kind: Kind, b: Body, doc: Document)
    requires OfKind(kind, b) && FullDocument(kind, b).Some?
    ensures var full := FullDocument(kind, b).value;
            ReadBack(format, kind, full) == ReadBack(format, kind, Replaced(doc, full)) == Some(NormalBody(format, b))
  {
    FieldNames();
    var full := FullDocument(kind, b).value;
    var stored := Replaced(doc, full);
    assert forall k | k in OURS :: (k in stored <==> k in full) && (k in full ==> stored[k] == full[k]);
  }

  /** A document is refused when read back exactly if its spec or status is not a struct of that kind, or a
      content field is one; a missing field reads as zero. */
  lemma WhenReadsFail(format: Formatter, kind: Kind, doc: Document)
    ensures ReadBack(format, kind, doc).None? <==>
            || ("spec" in doc && !doc["spec"].SpecField?)
            || ("status" in doc && !doc["status"].StatusField?)
            || ("spec_kubeContent" in doc && !doc["spec_kubeContent"].Plain?)
            || ("status_kubeContent" in doc && !doc["status_kubeContent"].Plain?)
    ensures ReadBack(format, kind, map[]) == Some(ZeroBody)
  {
    FieldNames();
  }

  // What a reader takes a content field for: nothing if it is missing or null, else its bytes.
  ghost predicate ReadAs(format: Formatter, doc: Document, name: string, content: Option<seq<byte>>) {
    if name in doc && doc[name] != Plain(VNull)
    then doc[name].Plain? && content == Some(Marshal(format, doc[name].v))
    else content == None
  }

  /** What is read, for each kind, of any document that is not refused: a desire of that kind, with the spec
      and the status under their names and the one content the kind has. */
  lemma WhatIsRead(format: Formatter, kind: Kind, doc: Document)
    requires ReadBack(format, kind, doc).Some?
    ensures var b := ReadBack(format, kind, doc).value;
            && OfKind(kind, b)
            && (kind == ApplyKind ==> ReadAs(format, doc, "spec_kubeContent", b.specKubeContent))
            && (kind == ReadKind ==> ReadAs(format, doc, "status_kubeContent", b.statusKubeContent))
            && ("spec" in doc ==> doc["spec"] == SpecField(b.spec))
            && ("status" in doc ==> doc["status"] == StatusField(b.conditions, b.observed, b.generation))
            && ("spec" !in doc ==> b.spec == ZeroBody.spec)
            && ("status" !in doc ==> b.conditions == [] && b.observed == 0 && b.generation == 0)
  {
    FieldNames();
  }

  /** A write fails exactly when some KubeContent is no JSON object and not null, or has a number beyond
      the doubles. */
  lemma WhenWritesFail(kind: Kind, b: Body)
    requires OfKind(kind, b)
    ensures FullDocument(kind, b).None? <==> !Storable(b.specKubeContent) || !Storable(b.statusKubeContent)
  {
  }

  predicate Storable(ext: Option<seq<byte>>) {
    || ext.None? || ext.value == []
    || (Unmarshal(ext.value).Some? && var t := Unmarshal(ext.value).value; (t.Obj? || t == Null) && InRange(t))
  }

  lemma EmptyIsNoText()
    ensures Unmarshal([]) == None
  {
  }

  // What an object that can be stored reads back as.
  lemma NormalRawOfObject(format: Formatter, raw: seq<byte>)
    requires Unmarshal(raw).Some? && Unmarshal(raw).value.Obj? && InRange(Unmarshal(raw).value)
    ensures NormalRaw(format, Some(raw)) == Some(SpellText(Normal(format, Unmarshal(raw).value)))
  {
    EmptyIsNoText();
  }

  /** KubeContent normalisation: an object that can be stored reads back as another spelling of the same
      text, with the value at every path kept, numbers as the doubles they are read as; and a second
      trip gives the same bytes. */
  lemma ContentIsNormalised(format: Formatter, raw: seq<byte>)
    requires Faithful(format)
    requires Unmarshal(raw).Some? && Unmarshal(raw).value.Obj? && InRange(Unmarshal(raw).value)
    ensures var t := Unmarshal(raw).value;
            && var back := NormalRaw(format, Some(raw));
            && back.Some? && Unmarshal(back.value) == Some(Normal(format, t))
            && (forall path :: ShapeAt(Normal(format, t), path) == ShapeAt(t, path))
            && NormalRaw(format, back) == back
  {
    var t := Unmarshal(raw).value;
    NormalRawOfObject(format, raw);
    MarshalUnmarshals(format, Decode(t));
    forall path ensures ShapeAt(Normal(format, t), path) == ShapeAt(t, path) {
      NormalKeepsEveryPath(format, t, path);
    }
    NormalIsIdempotent(format, t);
    NormalRawOfObject(format, Marshal(format, Decode(t)));
  }

  /** Everything else that can be stored reads back as nil. */
  lemma OtherContentIsAbsent(format: Formatter, ext: Option<seq<byte>>)
    requires Storable(ext)
    ensures NormalRaw(format, ext) == None <==> ext.None? || ext.value == [] || Unmarshal(ext.value) == Some(Null)
  {
    EmptyIsNoText();
  }

  /** The bytes of an object come back unchanged if and only if they are json.Marshal's own: written
      without white space and with its escapes, members sorted, and every number spelled as json.Marshal
      spells the double it is read as. */
  lemma ComesBackIff(format: Formatter, raw: seq<byte>)
    requires Faithful(format)
    requires Unmarshal(raw).Some? && Unmarshal(raw).value.Obj? && InRange(Unmarshal(raw).value)
    ensures var t := Unmarshal(raw).value;
            NormalRaw(format, Some(raw)) == Some(raw) <==> raw == SpellText(t) && Sorted(t) && OwnSpelling(format, t)
  {
    var t := Unmarshal(raw).value;
    NormalRawOfObject(format, raw);
    MarshalUnmarshals(format, Decode(t));
    LeftAloneIff(format, t);
  }

  /** For an object as json.Marshal of the cached object writes it, sorted but with whatever integers it
      holds, that is down to the numbers. */
  lemma MarshalledSurvivesIff(format: Formatter, t: Text)
    requires Faithful(format) && t.Obj? && Sorted(t) && InRange(t)
    ensures NormalRaw(format, Some(SpellText(t))) == Some(SpellText(t)) <==> OwnSpelling(format, t)
  {
    InRangeNumbers(t);
    UnmarshalUndoesSpell(t);
    ComesBackIff(format, SpellText(t));
  }

  /** An object read from a document always survives: its numbers are doubles. */
  lemma MarshalledSurvives(format: Formatter, fields: map<seq<byte>, Value>)
    requires Faithful(format)
    ensures NormalRaw(format, Some(Marshal(format, VObj(fields)))) == Some(Marshal(format, VObj(fields)))
  {
    MarshalUnmarshals(format, VObj(fields));
    NormalRawOfObject(format, Marshal(format, VObj(fields)));
    DecodeOfEncode(format, VObj(fields));
  }

  /** {"n":number} */
  function OneNumber(text: seq<byte>): Text {
    Obj([Member([0x6E], Num(text))])
  }

  lemma OneNumberInRange(text: seq<byte>)
    requires HasDouble(text)
    ensures InRange(OneNumber(text)) && AllNumbers(OneNumber(text), IsNumber)
  {
    assert InRange(Num(text)) && AllNumbers(Num(text), IsNumber);
  }

  lemma OneNumberOwn(format: Formatter, text: seq<byte>)
    ensures Sorted(OneNumber(text)) && (OwnSpelling(format, OneNumber(text)) <==> Survives(format, text))
  {
    assert OwnSpelling(format, Num(text)) <==> Survives(format, text);
    assert OneNumber(text).members[0].value == Num(text);
  }

  lemma OneNumberText(format: Formatter, text: seq<byte>)
    requires HasDouble(text)
    ensures Normal(format, OneNumber(text)) == OneNumber(format(Read(text).value))
  {
    NormalOfOne(format, Member([0x6E], Num(text)));
    NormalOfNumber(format, text);
  }

  lemma OneNumberNormal(format: Formatter, text: seq<byte>)
    requires HasDouble(text)
    ensures NormalRaw(format, Some(SpellText(OneNumber(text)))) == Some(SpellText(OneNumber(format(Read(text).value))))
  {
    OneNumberText(format, text);
    OneNumberInRange(text);
    UnmarshalUndoesSpell(OneNumber(text));
    NormalRawOfObject(format, SpellText(OneNumber(text)));
  }

  lemma OneNumberDiffers(text: seq<byte>, other: seq<byte>)
    requires HasDouble(text) && HasDouble(other) && text != other
    ensures SpellText(OneNumber(text)) != SpellText(OneNumber(other))
  {
    OneNumberInRange(text);
    OneNumberInRange(other);
    assert OneNumber(text).members[0] != OneNumber(other).members[0];
    UnmarshalUndoesSpell(OneNumber(text));
    UnmarshalUndoesSpell(OneNumber(other));
  }

  /** {"n":v} survives for plain integers up to 2^53. */
  lemma SmallIntegerComesBack(format: Formatter, v: nat)
    requires Faithful(format) && v <= TWO53
    ensures var raw := SpellText(OneNumber(Sign(false) + Decimal(v))); NormalRaw(format, Some(raw)) == Some(raw)
  {
    SmallIntegersSurvive(format, false, v);
    OneNumberNormal(format, Sign(false) + Decimal(v));
  }

  /** {"n":9007199254740993}, which json.Marshal writes for that int64, does not: it reads back with
      9007199254740992, so a mirrored object with it never compares equal. */
  lemma LargeIntegerIsLost(format: Formatter, lost: seq<byte>, kept: seq<byte>)
    requires Faithful(format)
    requires lost == Sign(false) + Decimal(TWO53 + 1) && kept == Sign(false) + Decimal(TWO53)
    ensures NormalRaw(format, Some(SpellText(OneNumber(lost)))) == Some(SpellText(OneNumber(kept)))
    ensures SpellText(OneNumber(lost)) != SpellText(OneNumber(kept))
  {
    FirstIntegerDoesNotSurvive(format, false);
    SmallIntegersSurvive(format, false, TWO53);
    OneNumberNormal(format, lost);
    OneNumberDiffers(lost, kept);
  }
}
