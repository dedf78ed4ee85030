/** src/helpers/confidential.ts: what of a value may be logged. */
module Confidential {
  import opened Prelude

  datatype Field = Field(key: JsString, value: Value)

  /**
    * JavaScript values as `censor` tells them apart. `Instance` is an object of any other class. The last
    * three are the wrappers; the items of a `ConfidentialArray` are wrappers themselves.
    */
  datatype Value =
    | Null
    | Undefined
    | Boolean(bool)
    | Number(real)
    | String(chars: JsString)
    | Array(items: seq<Value>)
    | ArrayBuffer(bytes: Bytes)
    | Uint8Array(view: Bytes, offset: nat)
    | Blob(content: Bytes, mediaType: JsString)
    | Object(fields: seq<Field>)
    | Instance(className: JsString, state: seq<Field>)
    | ConfidentialArray(wrapped: seq<Value>)
    | ConfidentialObjectValues(inner: Value)
    | ConfidentialWireMessage(message: seq<Field>)

  datatype CensoredField = CensoredField(key: JsString, value: Censored)

  /** What is logged; the constructors from `ClassName` on stand for the texts in brackets. */
  datatype Censored =
    | NullShown
    | UndefinedShown
    | ArrayShown(items: seq<Censored>)
    | ObjectShown(fields: seq<CensoredField>)
    | Unchanged(value: Value)
    | ClassName(name: JsString)
    | StringLength(length: nat)
    | ArrayBufferLength(length: nat)
    | Uint8ArrayLength(length: nat, offset: nat)
    | BlobSize(size: nat, mediaType: JsString)

  const BOOLEAN: JsString := [66, 111, 111, 108, 101, 97, 110]
  const NUMBER: JsString := [78, 117, 109, 98, 101, 114]
  const ARGS: JsString := [97, 114, 103, 115]
  const DATA: JsString := [100, 97, 116, 97]

  function Censor(value: Value): Censored
    decreases value
  {
    match value
    case Null => NullShown
    case Undefined => UndefinedShown
    case ConfidentialArray(items) => ArrayShown(CensorItems(items))
    case ConfidentialObjectValues(inner) => Censor(inner)
    case ConfidentialWireMessage(message) => ObjectShown(CensorMessage(message))
    case String(chars) => StringLength(|chars|)
    case Array(items) => ArrayShown(CensorItems(items))
    case ArrayBuffer(bytes) => ArrayBufferLength(|bytes|)
    case Uint8Array(view, offset) => Uint8ArrayLength(|view|, offset)
    case Blob(content, mediaType) => BlobSize(|content|, mediaType)
    case Object(fields) => ObjectShown(CensorFields(fields))
    case Boolean(_) => ClassName(BOOLEAN)
    case Number(_) => ClassName(NUMBER)
    case Instance(className, _) => ClassName(className)
  }

  function CensorItems(items: seq<Value>): (shown: seq<Censored>)
    ensures |shown| == |items| && forall i :: 0 <= i < |items| ==> shown[i] == Censor(items[i])
    decreases items
  {
    seq(|items|, i requires 0 <= i < |items| => Censor(items[i]))
  }

  function CensorFields(fields: seq<Field>): (shown: seq<CensoredField>)
    ensures |shown| == |fields|
    ensures forall i :: 0 <= i < |fields| ==> shown[i] == CensoredField(fields[i].key, Censor(fields[i].value))
    decreases fields
  {
    seq(|fields|, i requires 0 <= i < |fields| => CensoredField(fields[i].key, Censor(fields[i].value)))
  }

  /** A copy of the message with two of its fields censored. */
  function CensorMessage(message: seq<Field>): (shown: seq<CensoredField>)
    ensures |shown| == |message|
    ensures forall i :: 0 <= i < |message| ==>
              (shown[i] == CensoredField(message[i].key,
                                         if IsCensoredInMessage(message[i]) then Censor(message[i].value)
                                         else Unchanged(message[i].value)))
    decreases message
  {
    seq(|message|, i requires 0 <= i < |message| =>
      CensoredField(message[i].key, if IsCensoredInMessage(message[i]) then Censor(message[i].value)
                                    else Unchanged(message[i].value)))
  }

  /** Of a wire message only the arguments and the data are censored, if they exist. */
  predicate IsCensoredInMessage(field: Field) {
    (field.key == ARGS || field.key == DATA) && field.value != Undefined
  }

  function ClassOf(value: Value): Option<JsString> {
    match value
    case Boolean(_) => Some(BOOLEAN)
    case Number(_) => Some(NUMBER)
    case Instance(className, _) => Some(className)
    case _ => None
  }

  /** Equal but for what may not be revealed: the two values have the same shape. */
  ghost predicate SameShape(a: Value, b: Value) {
    match (a, b)
    case (Null, Null) => true
    case (Undefined, Undefined) => true
    case (String(s), String(t)) => |s| == |t|
    case (Array(s), Array(t)) => |s| == |t| && forall i :: 0 <= i < |s| ==> SameShape(s[i], t[i])
    case (ArrayBuffer(s), ArrayBuffer(t)) => |s| == |t|
    case (Uint8Array(s, m), Uint8Array(t, n)) => |s| == |t| && m == n
    case (Blob(s, m), Blob(t, n)) => |s| == |t| && m == n
    case (Object(s), Object(t)) =>
      |s| == |t| && forall i :: 0 <= i < |s| ==> s[i].key == t[i].key && SameShape(s[i].value, t[i].value)
    case (ConfidentialArray(s), ConfidentialArray(t)) =>
      |s| == |t| && forall i :: 0 <= i < |s| ==> SameShape(s[i], t[i])
    case (ConfidentialObjectValues(s), ConfidentialObjectValues(t)) => SameShape(s, t)
    case (ConfidentialWireMessage(s), ConfidentialWireMessage(t)) =>
      |s| == |t| && forall i :: 0 <= i < |s| ==> SameField(s[i], t[i])
    case _ => ClassOf(a).Some? && ClassOf(a) == ClassOf(b)
  }

  /** Censoring depends on nothing but the shape: two runs on values of one shape log the same. */
  lemma {:induction false} CensorRevealsShapeOnly(a: Value, b: Value)
    requires SameShape(a, b)
    ensures Censor(a) == Censor(b)
    decreases a
  {
    match (a, b) {
      case (Array(s), Array(t)) => ItemsRevealShapeOnly(s, t);
      case (ConfidentialArray(s), ConfidentialArray(t)) => ItemsRevealShapeOnly(s, t);
      case (Object(s), Object(t)) => FieldsRevealShapeOnly(s, t);
      case (ConfidentialObjectValues(s), ConfidentialObjectValues(t)) => CensorRevealsShapeOnly(s, t);
      case (ConfidentialWireMessage(s), ConfidentialWireMessage(t)) => MessageRevealsShapeOnly(s, t);
      case _ =>
    }
  }

  lemma {:induction false} ItemsRevealShapeOnly(s: seq<Value>, t: seq<Value>)
    requires |s| == |t| && forall i :: 0 <= i < |s| ==> SameShape(s[i], t[i])
    ensures CensorItems(s) == CensorItems(t)
    decreases s
  {
    forall i | 0 <= i < |s| ensures Censor(s[i]) == Censor(t[i]) {
      CensorRevealsShapeOnly(s[i], t[i]);
    }
  }

  lemma {:induction false} FieldsRevealShapeOnly(s: seq<Field>, t: seq<Field>)
    requires |s| == |t| && forall i :: 0 <= i < |s| ==> s[i].key == t[i].key && SameShape(s[i].value, t[i].value)
    ensures CensorFields(s) == CensorFields(t)
    decreases s
  {
    forall i | 0 <= i < |s| ensures Censor(s[i].value) == Censor(t[i].value) {
      CensorRevealsShapeOnly(s[i].value, t[i].value);
    }
  }

  /** Fields of a message may differ in the contents of `args` and `data` only. */
  ghost predicate SameField(f: Field, g: Field) {
    && f.key == g.key
    && (if f.key == [97, 114, 103, 115] || f.key == [100, 97, 116, 97] then SameShape(f.value, g.value)
        else f.value == g.value)
  }

  /** Arguments and data of a message are censored, and nothing else is. */
  lemma MessageHidesArgsAndData(message: seq<Field>, i: nat)
    requires i < |message|
    ensures var f := message[i];
            CensorMessage(message)[i].value ==
            if (f.key == [97, 114, 103, 115] || f.key == [100, 97, 116, 97]) && f.value != Undefined
            then Censor(f.value)
            else Unchanged(f.value)
  {
    hide Censor;
  }

  lemma ShapeOfUndefined(a: Value, b: Value)
    requires SameShape(a, b)
    ensures a == Undefined <==> b == Undefined
  {
  }

  lemma {:induction false} MessageRevealsShapeOnly(s: seq<Field>, t: seq<Field>)
    requires |s| == |t| && forall i :: 0 <= i < |s| ==> SameField(s[i], t[i])
    ensures CensorMessage(s) == CensorMessage(t)
    decreases s
  {
    forall i | 0 <= i < |s| ensures CensorMessage(s)[i] == CensorMessage(t)[i] {
      assert SameField(s[i], t[i]);
      if SameShape(s[i].value, t[i].value) {
        ShapeOfUndefined(s[i].value, t[i].value);
      }
      if IsCensoredInMessage(s[i]) {
        CensorRevealsShapeOnly(s[i].value, t[i].value);
      }
    }
  }

  /** No wrapper anywhere in the value. */
  ghost predicate Unwrapped(value: Value) {
    match value
    case Array(items) => forall i :: 0 <= i < |items| ==> Unwrapped(items[i])
    case Object(fields) => forall i :: 0 <= i < |fields| ==> Unwrapped(fields[i].value)
    case _ => !value.ConfidentialArray? && !value.ConfidentialObjectValues? && !value.ConfidentialWireMessage?
  }

  /** Conversely the shape survives: lengths, keys and nesting can be told from what is logged. */
  lemma {:induction false} CensorRevealsShape(a: Value, b: Value)
    requires Unwrapped(a) && Unwrapped(b)
    ensures Censor(a) == Censor(b) <==> SameShape(a, b)
  {
    if SameShape(a, b) {
      CensorRevealsShapeOnly(a, b);
    }
    if Censor(a) == Censor(b) {
      if a.Array? {
        assert b.Array?;
        forall i | 0 <= i < |a.items| ensures SameShape(a.items[i], b.items[i]) {
          assert Censor(a).items[i] == Censor(a.items[i]) && Censor(b).items[i] == Censor(b.items[i]);
          CensorRevealsShape(a.items[i], b.items[i]);
        }
      } else if a.Object? {
        assert b.Object?;
        forall i | 0 <= i < |a.fields|
          ensures a.fields[i].key == b.fields[i].key && SameShape(a.fields[i].value, b.fields[i].value)
        {
          assert Censor(a).fields[i] == CensoredField(a.fields[i].key, Censor(a.fields[i].value));
          assert Censor(b).fields[i] == CensoredField(b.fields[i].key, Censor(b.fields[i].value));
          CensorRevealsShape(a.fields[i].value, b.fields[i].value);
        }
      }
    }
  }

  // ---- What the log tells apart ---------------------------------------------------------------

  /** The items of an array, wrapped or not. */
  function Items(value: Value): Option<seq<Value>> {
    match value
    case Array(items) => Some(items)
    case ConfidentialArray(items) => Some(items)
    case _ => None
  }

  /** The fields of an object or a wire message. */
  function Fields(value: Value): Option<seq<Field>> {
    match value
    case Object(fields) => Some(fields)
    case ConfidentialWireMessage(message) => Some(message)
    case _ => None
  }

  predicate IsCensored(value: Value, field: Field) { value.Object? || IsCensoredInMessage(field) }

  /**
    * The same shape once wrappers are taken off: wrapped objects are like the object itself, wrapped
    * arrays like arrays, and a wire message like an object, as far as its fields are censored.
    */
  ghost predicate LogsAlike(a: Value, b: Value)
    decreases a, b
  {
    if a.ConfidentialObjectValues? then LogsAlike(a.inner, b)
    else if b.ConfidentialObjectValues? then LogsAlike(a, b.inner)
    else if Items(a).Some? && Items(b).Some? then
      var s, t := Items(a).value, Items(b).value;
      |s| == |t| && forall i :: 0 <= i < |s| ==> LogsAlike(s[i], t[i])
    else if Fields(a).Some? && Fields(b).Some? then
      var s, t := Fields(a).value, Fields(b).value;
      && |s| == |t|
      && forall i :: 0 <= i < |s| ==>
           && s[i].key == t[i].key && (IsCensored(a, s[i]) <==> IsCensored(b, t[i]))
           && (if IsCensored(a, s[i]) then LogsAlike(s[i].value, t[i].value) else s[i].value == t[i].value)
    else Items(a).None? && Items(b).None? && Fields(a).None? && Fields(b).None? && SameShape(a, b)
  }

  lemma CensorOfItems(a: Value)
    requires Items(a).Some?
    ensures Censor(a).ArrayShown? && |Censor(a).items| == |Items(a).value|
    ensures forall i :: 0 <= i < |Items(a).value| ==> Censor(a).items[i] == Censor(Items(a).value[i])
  {
  }

  lemma CensorOfFields(a: Value)
    requires Fields(a).Some?
    ensures Censor(a).ObjectShown? && |Censor(a).fields| == |Fields(a).value|
    ensures forall i :: 0 <= i < |Fields(a).value| ==>
              var f := Fields(a).value[i];
              Censor(a).fields[i] ==
              CensoredField(f.key, if IsCensored(a, f) then Censor(f.value) else Unchanged(f.value))
  {
  }

  /** Field by field, unless one of them is shown and the other is not. */
  lemma {:induction false} FieldsTellApart(a: Value, b: Value)
    requires Fields(a).Some? && Fields(b).Some?
    ensures Censor(a) == Censor(b) <==> LogsAlike(a, b)
    decreases a, b, 0
  {
    CensorOfFields(a);
    CensorOfFields(b);
    var s, t := Fields(a).value, Fields(b).value;
    forall i | 0 <= i < |s| && i < |t|
      ensures Censor(s[i].value) == Censor(t[i].value) <==> LogsAlike(s[i].value, t[i].value)
      ensures !Censor(s[i].value).Unchanged? && !Censor(t[i].value).Unchanged?
    {
      CensorTellsApart(s[i].value, t[i].value);
      NeverUnchanged(s[i].value);
      NeverUnchanged(t[i].value);
    }
  }

  lemma {:induction false} ItemsTellApart(a: Value, b: Value)
    requires Items(a).Some? && Items(b).Some?
    ensures Censor(a) == Censor(b) <==> LogsAlike(a, b)
    decreases a, b, 0
  {
    CensorOfItems(a);
    CensorOfItems(b);
    forall i | 0 <= i < |Items(a).value| && i < |Items(b).value|
      ensures Censor(a).items[i] == Censor(b).items[i] <==> LogsAlike(Items(a).value[i], Items(b).value[i])
    {
      CensorTellsApart(Items(a).value[i], Items(b).value[i]);
    }
  }

  lemma KindShows(a: Value)
    requires !a.ConfidentialObjectValues?
    ensures Items(a).Some? <==> Censor(a).ArrayShown?
    ensures Fields(a).Some? <==> Censor(a).ObjectShown?
  {
  }

  /** Values of which not both are arrays, and not both have fields. */
  lemma OthersTellApart(a: Value, b: Value)
    requires !a.ConfidentialObjectValues? && !b.ConfidentialObjectValues?
    requires !(Items(a).Some? && Items(b).Some?) && !(Fields(a).Some? && Fields(b).Some?)
    ensures Censor(a) == Censor(b) <==> LogsAlike(a, b)
  {
    hide Censor, SameShape;
    KindShows(a);
    KindShows(b);
    if Items(a).None? && Items(b).None? && Fields(a).None? && Fields(b).None? {
      CensorRevealsShape(a, b);
    }
  }

  lemma {:induction false} NeverUnchanged(a: Value)
    ensures !Censor(a).Unchanged?
    decreases a
  {
    if a.ConfidentialObjectValues? {
      NeverUnchanged(a.inner);
    }
  }

  /** Two values, wrapped in whatever way, are logged the same exactly when they are alike. */
  lemma {:induction false} CensorTellsApart(a: Value, b: Value)
    ensures Censor(a) == Censor(b) <==> LogsAlike(a, b)
    decreases a, b, 1
  {
    if a.ConfidentialObjectValues? {
      CensorTellsApart(a.inner, b);
    } else if b.ConfidentialObjectValues? {
      CensorTellsApart(a, b.inner);
    } else if Items(a).Some? && Items(b).Some? {
      ItemsTellApart(a, b);
    } else if Fields(a).Some? && Fields(b).Some? {
      FieldsTellApart(a, b);
    } else {
      OthersTellApart(a, b);
    }
  }
}
