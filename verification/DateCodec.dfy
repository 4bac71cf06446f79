/**
 * Dates in exported simulation contexts (src/client/stellarClient.ts): `freezeDates` writes each Date as an object
 * whose only key is `__date`, `thawDates` reads such objects back.
 */
module DateCodec {
  import opened Common

  const DATE_MARKER := "__date"

  /** A Date holds a time in milliseconds, or none when it is invalid. Objects keep their keys in order. */
  datatype Value =
    | Undefined
    | Null
    | Bool(bit: bool)
    | Num(number: real)
    | Str(text: string)
    | Date(time: Option<int>)
    | Arr(items: seq<Value>)
    | Obj(fields: seq<Field>)
  datatype Field = Field(key: string, value: Value)

  /** `toISOString` of valid dates, and the constructor of Date on strings. */
  datatype Calendar = Calendar(iso: int -> string, parse: string -> Option<int>) {
    ghost predicate Faithful() {
      forall t :: parse(iso(t)) == Some(t)
    }
  }

  // ---------------------------------------------------------------------------
  // Objects
  // ---------------------------------------------------------------------------

  ghost predicate DistinctKeys(fields: seq<Field>) {
    forall i, j :: 0 <= i < j < |fields| ==> fields[i].key != fields[j].key
  }

  /** `p` holds of the value and of everything inside it. */
  ghost predicate Everywhere(p: Value -> bool, v: Value) {
    && p(v)
    && match v
       case Arr(items) => EveryItem(p, items)
       case Obj(fields) => EveryField(p, fields)
       case _ => true
  }

  ghost predicate EveryItem(p: Value -> bool, items: seq<Value>) {
    items == [] || (Everywhere(p, items[0]) && EveryItem(p, items[1..]))
  }

  ghost predicate EveryField(p: Value -> bool, fields: seq<Field>) {
    fields == [] || (Everywhere(p, fields[0].value) && EveryField(p, fields[1..]))
  }

  lemma {:induction false} EveryItemAt(p: Value -> bool, items: seq<Value>, i: nat)
    requires EveryItem(p, items) && i < |items|
    ensures Everywhere(p, items[i])
  {
    if i == 0 {
    } else {
      EveryItemAt(p, items[1..], i - 1);
    }
  }

  lemma {:induction false} EveryFieldAt(p: Value -> bool, fields: seq<Field>, i: nat)
    requires EveryField(p, fields) && i < |fields|
    ensures Everywhere(p, fields[i].value)
  {
    if i == 0 {
    } else {
      EveryFieldAt(p, fields[1..], i - 1);
    }
  }

  ghost predicate ProperObject(v: Value) {
    v.Obj? ==> DistinctKeys(v.fields)
  }

  /** No object at any depth has a key twice. */
  ghost predicate WellFormed(v: Value) {
    Everywhere(ProperObject, v)
  }

  /** `out[key] = value`. */
  function Put(fields: seq<Field>, key: string, value: Value): seq<Field> {
    if fields == [] then [Field(key, value)]
    else if fields[0].key == key then [Field(key, value)] + fields[1..]
    else [fields[0]] + Put(fields[1..], key, value)
  }

  lemma {:induction false} PutNew(fields: seq<Field>, key: string, value: Value)
    requires forall i :: 0 <= i < |fields| ==> fields[i].key != key
    ensures Put(fields, key, value) == fields + [Field(key, value)]
  {
    if fields == [] {
    } else {
      PutNew(fields[1..], key, value);
      assert fields == [fields[0]] + fields[1..];
    }
  }

  // ---------------------------------------------------------------------------
  // Freezing
  // ---------------------------------------------------------------------------

  function Marker(iso: string): Value {
    Obj([Field(DATE_MARKER, Str(iso))])
  }

  /** None stands for the RangeError that `toISOString` throws on an invalid date. */
  function Freeze(c: Calendar, v: Value): Option<Value> {
    match v
    case Date(None) => None
    case Date(Some(t)) => Some(Marker(c.iso(t)))
    case Arr(items) => (match FreezeItems(c, items) case None => None case Some(frozen) => Some(Arr(frozen)))
    case Obj(fields) => (match FreezeFields(c, fields) case None => None case Some(frozen) => Some(Obj(frozen)))
    case _ => Some(v)
  }

  function FreezeItems(c: Calendar, items: seq<Value>): Option<seq<Value>> {
    if items == [] then Some([])
    else
      match (Freeze(c, items[0]), FreezeItems(c, items[1..]))
      case (Some(head), Some(tail)) => Some([head] + tail)
      case _ => None
  }

  function FreezeFields(c: Calendar, fields: seq<Field>): Option<seq<Field>> {
    if fields == [] then Some([])
    else
      match (Freeze(c, fields[0].value), FreezeFields(c, fields[1..]))
      case (Some(head), Some(tail)) => Some([Field(fields[0].key, head)] + tail)
      case _ => None
  }

  method FreezeDates(c: Calendar, v: Value) returns (r: Option<Value>)
    requires WellFormed(v)
    ensures r == Freeze(c, v)
    decreases v
  {
    match v
    case Date(time) =>
      r := if time.None? then None else Some(Marker(c.iso(time.value)));
    case Arr(items) =>
      var out: seq<Value> := [];
      BeforeNothing(FreezeItems(c, items));
      assert items[0..] == items;
      for i := 0 to |items|
        invariant FreezeItems(c, items) == Before(out, FreezeItems(c, items[i..]))
      {
        EveryItemAt(ProperObject, items, i);
        var item := FreezeDates(c, items[i]);
        if item.None? {
          return None;
        }
        BeforeAssoc(out, item.value, FreezeItems(c, items[i + 1..]));
        assert items[i..][1..] == items[i + 1..];
        out := out + [item.value];
      }
      BeforeEnd(out);
      r := Some(Arr(out));
    case Obj(fields) =>
      var out: seq<Field> := [];
      BeforeNothing(FreezeFields(c, fields));
      assert fields[0..] == fields;
      for i := 0 to |fields|
        invariant FreezeFields(c, fields) == Before(out, FreezeFields(c, fields[i..]))
        invariant |out| == i && forall k :: 0 <= k < i ==> out[k].key == fields[k].key
      {
        EveryFieldAt(ProperObject, fields, i);
        var item := FreezeDates(c, fields[i].value);
        if item.None? {
          return None;
        }
        BeforeAssoc(out, Field(fields[i].key, item.value), FreezeFields(c, fields[i + 1..]));
        PutNew(out, fields[i].key, item.value);
        assert fields[i..][1..] == fields[i + 1..];
        out := Put(out, fields[i].key, item.value);
      }
      BeforeEnd(out);
      r := Some(Obj(out));
    case _ =>
      r := Some(v);
  }

  ghost function Before<T>(done: seq<T>, rest: Option<seq<T>>): Option<seq<T>> {
    if rest.None? then None else Some(done + rest.value)
  }

  lemma BeforeNothing<T>(rest: Option<seq<T>>)
    ensures Before([], rest) == rest
  {
    if rest.Some? {
      assert [] + rest.value == rest.value;
    }
  }

  lemma BeforeEnd<T>(done: seq<T>)
    ensures Before(done, Some([])) == Some(done)
  {
    assert done + [] == done;
  }

  lemma BeforeAssoc<T>(done: seq<T>, x: T, rest: Option<seq<T>>)
    ensures Before(done, Before([x], rest)) == Before(done + [x], rest)
  {
    if rest.Some? {
      assert done + ([x] + rest.value) == (done + [x]) + rest.value;
    }
  }

  // ---------------------------------------------------------------------------
  // Thawing
  // ---------------------------------------------------------------------------

  function Lookup(fields: seq<Field>, key: string): Value {
    if fields == [] then Undefined
    else if fields[0].key == key then fields[0].value
    else Lookup(fields[1..], key)
  }

  /** The time that an object stands for, if it is read as a date. */
  function MarkedTime(c: Calendar, fields: seq<Field>): Option<int> {
    var marker := Lookup(fields, DATE_MARKER);
    if marker.Str? && |fields| == 1 then c.parse(marker.text) else None
  }

  function Thaw(c: Calendar, v: Value): Value {
    match v
    case Arr(items) => Arr(ThawItems(c, items))
    case Obj(fields) => if MarkedTime(c, fields).Some? then Date(MarkedTime(c, fields)) else Obj(ThawFields(c, fields))
    case _ => v
  }

  function ThawItems(c: Calendar, items: seq<Value>): seq<Value> {
    if items == [] then [] else [Thaw(c, items[0])] + ThawItems(c, items[1..])
  }

  function ThawFields(c: Calendar, fields: seq<Field>): seq<Field> {
    if fields == [] then []
    else [Field(fields[0].key, Thaw(c, fields[0].value))] + ThawFields(c, fields[1..])
  }

  method ThawDates(c: Calendar, v: Value) returns (r: Value)
    requires WellFormed(v)
    ensures r == Thaw(c, v)
    decreases v
  {
    match v
    case Arr(items) =>
      var out: seq<Value> := [];
      for i := 0 to |items|
        invariant ThawItems(c, items) == out + ThawItems(c, items[i..])
      {
        EveryItemAt(ProperObject, items, i);
        var item := ThawDates(c, items[i]);
        assert items[i..][1..] == items[i + 1..];
        out := out + [item];
      }
      r := Arr(out);
    case Obj(fields) =>
      var marker := Lookup(fields, DATE_MARKER);
      if marker.Str? && |fields| == 1 {
        var parsed := c.parse(marker.text);
        if parsed.Some? {
          return Date(parsed);
        }
      }
      var out := ThawObject(c, fields);
      r := Obj(out);
    case _ =>
      r := v;
  }

  lemma ConsAssoc<T>(done: seq<T>, x: T, rest: seq<T>)
    ensures done + ([x] + rest) == (done + [x]) + rest
  {
  }

  lemma ThawFieldsFrom(c: Calendar, fields: seq<Field>, i: nat)
    requires i < |fields|
    ensures ThawFields(c, fields[i..]) == [Field(fields[i].key, Thaw(c, fields[i].value))] + ThawFields(c, fields[i + 1..])
  {
  }

  method ThawObject(c: Calendar, fields: seq<Field>) returns (out: seq<Field>)
    requires DistinctKeys(fields) && EveryField(ProperObject, fields)
    ensures out == ThawFields(c, fields)
    decreases fields
  {
    out := [];
    for i := 0 to |fields|
      invariant ThawFields(c, fields) == out + ThawFields(c, fields[i..])
      invariant |out| == i && forall k :: 0 <= k < i ==> out[k].key == fields[k].key
    {
      EveryFieldAt(ProperObject, fields, i);
      var item := ThawDates(c, fields[i].value);
      ThawFieldsFrom(c, fields, i);
      ConsAssoc(out, Field(fields[i].key, item), ThawFields(c, fields[i + 1..]));
      PutNew(out, fields[i].key, item);
      out := Put(out, fields[i].key, item);
    }
  }

  // ---------------------------------------------------------------------------
  // Round trips
  // ---------------------------------------------------------------------------

  predicate NotInvalidDate(v: Value) {
    v.Date? ==> v.time.Some?
  }

  predicate NotDate(v: Value) {
    !v.Date?
  }

  /** An object that is taken for a frozen date. */
  predicate LooksFrozen(c: Calendar, v: Value) {
    && v.Obj? && |v.fields| == 1 && v.fields[0].key == DATE_MARKER && v.fields[0].value.Str?
    && c.parse(v.fields[0].value.text).Some?
  }

  function NoLookalike(c: Calendar): Value -> bool {
    (v: Value) => !LooksFrozen(c, v)
  }

  /** What is taken for a frozen date holds the very text that freezing would write. */
  predicate IsCanonical(c: Calendar, v: Value) {
    LooksFrozen(c, v) ==> c.iso(c.parse(v.fields[0].value.text).value) == v.fields[0].value.text
  }

  function CanonicalMarker(c: Calendar): Value -> bool {
    (v: Value) => IsCanonical(c, v)
  }

  lemma MarkedExactly(c: Calendar, fields: seq<Field>)
    ensures MarkedTime(c, fields).Some? <==> LooksFrozen(c, Obj(fields))
    ensures LooksFrozen(c, Obj(fields)) ==> MarkedTime(c, fields) == c.parse(fields[0].value.text)
  {
    if |fields| == 1 {
      assert Lookup(fields[1..], DATE_MARKER) == Undefined;
    }
  }

  lemma EverywhereMarker(p: Value -> bool, text: string)
    ensures Everywhere(p, Marker(text)) <==> p(Marker(text)) && p(Str(text))
  {
    var fields := [Field(DATE_MARKER, Str(text))];
    assert Everywhere(p, Str(text)) <==> p(Str(text));
    assert fields[1..] == [] && EveryField(p, []);
  }

  /** Freezing fails exactly on an invalid date and leaves no Date at any depth. */
  lemma {:induction false} FreezeLeavesNoDate(c: Calendar, v: Value)
    ensures Freeze(c, v).Some? <==> Everywhere(NotInvalidDate, v)
    ensures Freeze(c, v).Some? ==> Everywhere(NotDate, Freeze(c, v).value)
  {
    match v
    case Date(time) =>
      if time.Some? {
        EverywhereMarker(NotDate, c.iso(time.value));
      }
    case Arr(items) => ItemsLeaveNoDate(c, items);
    case Obj(fields) => FieldsLeaveNoDate(c, fields);
    case _ =>
  }

  lemma {:induction false} ItemsLeaveNoDate(c: Calendar, items: seq<Value>)
    ensures FreezeItems(c, items).Some? <==> EveryItem(NotInvalidDate, items)
    ensures FreezeItems(c, items).Some? ==> EveryItem(NotDate, FreezeItems(c, items).value)
  {
    if items == [] {
    } else {
      FreezeLeavesNoDate(c, items[0]);
      ItemsLeaveNoDate(c, items[1..]);
    }
  }

  lemma {:induction false} FieldsLeaveNoDate(c: Calendar, fields: seq<Field>)
    ensures FreezeFields(c, fields).Some? <==> EveryField(NotInvalidDate, fields)
    ensures FreezeFields(c, fields).Some? ==> EveryField(NotDate, FreezeFields(c, fields).value)
  {
    if fields == [] {
    } else {
      FreezeLeavesNoDate(c, fields[0].value);
      FieldsLeaveNoDate(c, fields[1..]);
    }
  }

  /** Thawing a frozen value gives the value back exactly when nothing in it already looked like a frozen date. */
  lemma {:induction false} ThawUndoesFreeze(c: Calendar, v: Value)
    requires c.Faithful() && Freeze(c, v).Some?
    ensures Thaw(c, Freeze(c, v).value) == v <==> Everywhere(NoLookalike(c), v)
  {
    match v
    case Date(Some(t)) =>
      MarkedExactly(c, [Field(DATE_MARKER, Str(c.iso(t)))]);
    case Arr(items) => ItemsThaw(c, items);
    case Obj(fields) =>
      FieldsThaw(c, fields);
      FrozenLookalike(c, fields);
      MarkedExactly(c, FreezeFields(c, fields).value);
    case _ =>
  }

  /** An object that looks like a frozen date freezes to itself and is thawed into a Date. */
  lemma LookalikeIsThawed(c: Calendar, t: int)
    requires c.Faithful()
    ensures Freeze(c, Marker(c.iso(t))) == Some(Marker(c.iso(t)))
    ensures Thaw(c, Marker(c.iso(t))) == Date(Some(t)) != Marker(c.iso(t))
  {
    var fields := [Field(DATE_MARKER, Str(c.iso(t)))];
    MarkedExactly(c, fields);
    assert Freeze(c, fields[0].value) == Some(fields[0].value) && FreezeFields(c, fields[1..]) == Some([]);
    assert FreezeFields(c, fields) == Some([fields[0]] + []) && [fields[0]] + [] == fields;
  }

  // ---------------------------------------------------------------------------
  // Piece by piece
  // ---------------------------------------------------------------------------

  lemma {:induction false} ItemsFreezeInPlace(c: Calendar, items: seq<Value>)
    requires FreezeItems(c, items).Some?
    ensures |FreezeItems(c, items).value| == |items|
    ensures forall i :: 0 <= i < |items| ==> Freeze(c, items[i]) == Some(FreezeItems(c, items).value[i])
  {
    if items == [] {
    } else {
      ItemsFreezeInPlace(c, items[1..]);
    }
  }

  lemma {:induction false} FieldsFreezeInPlace(c: Calendar, fields: seq<Field>)
    requires FreezeFields(c, fields).Some?
    ensures |FreezeFields(c, fields).value| == |fields|
    ensures forall i :: 0 <= i < |fields| ==>
              && FreezeFields(c, fields).value[i].key == fields[i].key
              && Freeze(c, fields[i].value) == Some(FreezeFields(c, fields).value[i].value)
  {
    if fields == [] {
    } else {
      FieldsFreezeInPlace(c, fields[1..]);
    }
  }

  lemma {:induction false} ItemsThawInPlace(c: Calendar, items: seq<Value>)
    ensures |ThawItems(c, items)| == |items|
    ensures forall i :: 0 <= i < |items| ==> ThawItems(c, items)[i] == Thaw(c, items[i])
  {
    if items == [] {
    } else {
      ItemsThawInPlace(c, items[1..]);
    }
  }

  lemma {:induction false} FieldsThawInPlace(c: Calendar, fields: seq<Field>)
    ensures |ThawFields(c, fields)| == |fields|
    ensures forall i :: 0 <= i < |fields| ==>
              ThawFields(c, fields)[i] == Field(fields[i].key, Thaw(c, fields[i].value))
  {
    if fields == [] {
    } else {
      FieldsThawInPlace(c, fields[1..]);
    }
  }

  /** Freezing writes a date as an object with the key `__date`, and goes into arrays and objects, item by item and key by
      key in their order; anything else stays as it is. */
  lemma FreezesInPlace(c: Calendar, v: Value)
    requires Freeze(c, v).Some?
    ensures var w := Freeze(c, v).value;
            match v
            case Date(time) => time.Some? && w == Obj([Field("__date", Str(c.iso(time.value)))])
            case Arr(items) =>
              w.Arr? && |w.items| == |items| && forall i :: 0 <= i < |items| ==> Freeze(c, items[i]) == Some(w.items[i])
            case Obj(fields) =>
              && w.Obj? && |w.fields| == |fields|
              && forall i :: 0 <= i < |fields| ==>
                   w.fields[i].key == fields[i].key && Freeze(c, fields[i].value) == Some(w.fields[i].value)
            case _ => w == v
  {
    match v
    case Arr(items) => ItemsFreezeInPlace(c, items);
    case Obj(fields) => FieldsFreezeInPlace(c, fields);
    case _ =>
  }

  /** Thawing reads a date from an object whose only key is `__date`, if its value is a string that parses, and goes into
      all other objects and arrays in the same way. */
  lemma ThawsInPlace(c: Calendar, v: Value)
    ensures var w := Thaw(c, v);
            match v
            case Arr(items) => w.Arr? && |w.items| == |items| && forall i :: 0 <= i < |items| ==> w.items[i] == Thaw(c, items[i])
            case Obj(fields) =>
              if |fields| == 1 && fields[0].key == "__date" && fields[0].value.Str? && c.parse(fields[0].value.text).Some?
              then w == Date(c.parse(fields[0].value.text))
              else
                && w.Obj? && |w.fields| == |fields|
                && forall i :: 0 <= i < |fields| ==> w.fields[i] == Field(fields[i].key, Thaw(c, fields[i].value))
            case _ => w == v
  {
    match v
    case Arr(items) => ItemsThawInPlace(c, items);
    case Obj(fields) =>
      MarkedExactly(c, fields);
      FieldsThawInPlace(c, fields);
    case _ =>
  }

  /** An assignment to a key is what is looked up there afterwards; other keys keep their values, and the keys that were
      there keep their places. */
  lemma {:induction false} PutThenLookup(fields: seq<Field>, key: string, value: Value, other: string)
    ensures Lookup(Put(fields, key, value), other) == if other == key then value else Lookup(fields, other)
    ensures |fields| <= |Put(fields, key, value)| <= |fields| + 1
    ensures forall i :: 0 <= i < |fields| ==> Put(fields, key, value)[i].key == fields[i].key
  {
    if fields == [] {
    } else {
      PutThenLookup(fields[1..], key, value, other);
      var rest := Put(fields[1..], key, value);
      assert ([fields[0]] + rest)[1..] == rest && ([Field(key, value)] + fields[1..])[1..] == fields[1..];
    }
  }

  /** Freezing an object neither makes nor removes the look of a frozen date. */
  lemma FrozenLookalike(c: Calendar, fields: seq<Field>)
    requires FreezeFields(c, fields).Some?
    ensures LooksFrozen(c, Obj(FreezeFields(c, fields).value)) <==> LooksFrozen(c, Obj(fields))
  {
  }

  lemma {:induction false} ItemsThaw(c: Calendar, items: seq<Value>)
    requires c.Faithful() && FreezeItems(c, items).Some?
    ensures ThawItems(c, FreezeItems(c, items).value) == items <==> EveryItem(NoLookalike(c), items)
  {
    if items == [] {
    } else {
      ThawUndoesFreeze(c, items[0]);
      ItemsThaw(c, items[1..]);
      ConsEqual(Thaw(c, Freeze(c, items[0]).value), ThawItems(c, FreezeItems(c, items[1..]).value), items);
    }
  }

  lemma {:induction false} FieldsThaw(c: Calendar, fields: seq<Field>)
    requires c.Faithful() && FreezeFields(c, fields).Some?
    ensures ThawFields(c, FreezeFields(c, fields).value) == fields <==> EveryField(NoLookalike(c), fields)
  {
    if fields == [] {
    } else {
      ThawUndoesFreeze(c, fields[0].value);
      FieldsThaw(c, fields[1..]);
      ConsEqual(Field(fields[0].key, Thaw(c, Freeze(c, fields[0].value).value)),
                ThawFields(c, FreezeFields(c, fields[1..]).value), fields);
    }
  }

  lemma ConsEqual<T>(head: T, tail: seq<T>, s: seq<T>)
    requires s != []
    ensures [head] + tail == s <==> head == s[0] && tail == s[1..]
    ensures ([head] + tail)[0] == head && ([head] + tail)[1..] == tail
  {
  }

  /** A value without dates, which is what an export holds, survives thawing and freezing exactly when each of its
      markers holds the text that freezing writes. */
  lemma {:induction false} FreezeUndoesThaw(c: Calendar, v: Value)
    requires Everywhere(NotDate, v)
    ensures Freeze(c, Thaw(c, v)).Some?
    ensures Freeze(c, Thaw(c, v)) == Some(v) <==> Everywhere(CanonicalMarker(c), v)
  {
    match v
    case Arr(items) => ItemsFreeze(c, items);
    case Obj(fields) =>
      MarkedExactly(c, fields);
      if LooksFrozen(c, v) {
        var text := fields[0].value.text;
        assert fields == [Field(DATE_MARKER, Str(text))];
        EverywhereMarker(CanonicalMarker(c), text);
        assert Freeze(c, Thaw(c, v)) == Some(Marker(c.iso(c.parse(text).value)));
        assert Marker(c.iso(c.parse(text).value)) == v ==> Marker(c.iso(c.parse(text).value)).fields[0] == fields[0];
      } else {
        FieldsFreeze(c, fields);
      }
    case Date(_) => assert false;
    case _ => assert Freeze(c, Thaw(c, v)) == Some(v);
  }

  lemma {:induction false} ItemsFreeze(c: Calendar, items: seq<Value>)
    requires EveryItem(NotDate, items)
    ensures FreezeItems(c, ThawItems(c, items)).Some?
    ensures FreezeItems(c, ThawItems(c, items)) == Some(items) <==> EveryItem(CanonicalMarker(c), items)
  {
    if items == [] {
    } else {
      FreezeUndoesThaw(c, items[0]);
      ItemsFreeze(c, items[1..]);
      ConsEqual(Thaw(c, items[0]), ThawItems(c, items[1..]), ThawItems(c, items));
      ConsEqual(Freeze(c, Thaw(c, items[0])).value, FreezeItems(c, ThawItems(c, items[1..])).value, items);
    }
  }

  lemma {:induction false} FieldsFreeze(c: Calendar, fields: seq<Field>)
    requires EveryField(NotDate, fields)
    ensures FreezeFields(c, ThawFields(c, fields)).Some?
    ensures FreezeFields(c, ThawFields(c, fields)) == Some(fields) <==> EveryField(CanonicalMarker(c), fields)
  {
    if fields == [] {
    } else {
      FreezeUndoesThaw(c, fields[0].value);
      FieldsFreeze(c, fields[1..]);
      var head := Field(fields[0].key, Thaw(c, fields[0].value));
      ConsEqual(head, ThawFields(c, fields[1..]), ThawFields(c, fields));
      ConsEqual(Field(fields[0].key, Freeze(c, Thaw(c, fields[0].value)).value),
                FreezeFields(c, ThawFields(c, fields[1..])).value, fields);
    }
  }
}
