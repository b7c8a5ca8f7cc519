/** Writing back only what an edit changed: a source tree, its canonical meaning before, and the meaning wanted after.

    A configuration tree is a scalar, a sequence or a mapping with text keys. The order of the keys of a mapping is
    not modelled. */
module MergeChanged {
  import opened Basics

  type Key = string

  datatype Value = Scalar(text: string) | Sequence(items: seq<Value>) | Mapping(fields: map<Key, Value>)

  /** The tree `merge_changed` leaves in place of `source`. */
  function Merge(source: Value, before: Value, after: Value): Value
    decreases after
  {
    if before == after then source
    else match (source, before, after)
      case (Mapping(s), Mapping(b), Mapping(a)) =>
        var kept := set k | k in s.Keys && (k in a.Keys || k !in b.Keys);
        var written := set k | k in a.Keys && (k !in b.Keys || b[k] != a[k]);
        Mapping(map k | k in kept + written ::
          if k !in a then s[k]
          else if k !in b then a[k]
          else if b[k] == a[k] then s[k]
          else Merge(if k in s then s[k] else b[k], b[k], a[k]))
      case (Sequence(s), Sequence(b), Sequence(a)) =>
        if |s| == |b| == |a| then Sequence(seq(|a|, i requires 0 <= i < |a| => Merge(s[i], b[i], a[i]))) else after
      case _ => after
  }

  function Lookup(fields: map<Key, Value>, key: Key): Option<Value> {
    if key in fields then Some(fields[key]) else None
  }

  /** What merging leaves under one key of a mapping. */
  function MergedField(s: map<Key, Value>, b: map<Key, Value>, a: map<Key, Value>, key: Key): Option<Value> {
    if key !in a then (if key in b then None else Lookup(s, key))
    else if key !in b then Some(a[key])
    else if b[key] == a[key] then Lookup(s, key)
    else Some(Merge(if key in s then s[key] else b[key], b[key], a[key]))
  }

  lemma MergeByField(s: map<Key, Value>, b: map<Key, Value>, a: map<Key, Value>, key: Key)
    requires b != a
    ensures Merge(Mapping(s), Mapping(b), Mapping(a)).Mapping?
    ensures Lookup(Merge(Mapping(s), Mapping(b), Mapping(a)).fields, key) == MergedField(s, b, a, key)
  {
  }

  lemma MapsAgree(x: map<Key, Value>, y: map<Key, Value>)
    requires forall k :: Lookup(x, k) == Lookup(y, k)
    ensures x == y
  {
    forall k
      ensures k in x <==> k in y
      ensures k in x ==> x[k] == y[k]
    {
      assert Lookup(x, k) == Lookup(y, k);
    }
  }

  // ---------------------------------------------------------------- the loops

  method MergeChanged(source: Value, before: Value, after: Value) returns (merged: Value)
    ensures merged == Merge(source, before, after)
    decreases after, 1
  {
    if before == after {
      return source;
    }
    match (source, before, after) {
      case (Mapping(s), Mapping(b), Mapping(a)) =>
        var fields := MergeFields(s, b, a, after);
        forall k
          ensures Lookup(fields, k) == Lookup(Merge(source, before, after).fields, k)
        {
          MergeByField(s, b, a, k);
        }
        MapsAgree(fields, Merge(source, before, after).fields);
        merged := Mapping(fields);
      case (Sequence(s), Sequence(b), Sequence(a)) =>
        if |s| == |b| == |a| {
          var items := s;
          for i := 0 to |a|
            invariant |items| == |a|
            invariant forall j | 0 <= j < i :: items[j] == Merge(s[j], b[j], a[j])
            invariant forall j | i <= j < |a| :: items[j] == s[j]
          {
            var item := MergeChanged(items[i], b[i], a[i]);
            items := items[i := item];
          }
          merged := Sequence(items);
        } else {
          merged := after;
        }
      case _ =>
        merged := after;
    }
  }

  /** The two loops over the keys of a mapping: first the removed keys, then the wanted ones. */
  method MergeFields(s: map<Key, Value>, b: map<Key, Value>, a: map<Key, Value>,
      after: Value) returns (fields: map<Key, Value>)
    requires after == Mapping(a)
    ensures forall k :: Lookup(fields, k) == MergedField(s, b, a, k)
    decreases after, 0
  {
    fields := RemoveDropped(s, b, a);
    var pending := a.Keys;
    while pending != {}
      invariant pending <= a.Keys
      invariant forall k | k in pending :: Lookup(fields, k) == Lookup(s, k)
      invariant forall k | k !in pending :: Lookup(fields, k) == MergedField(s, b, a, k)
      decreases |pending|
    {
      var key :| key in pending;
      assert Lookup(fields, key) == Lookup(s, key);
      if key in b {
        if b[key] != a[key] {
          var slot := if key in fields then fields[key] else b[key];
          var value := MergeChanged(slot, b[key], a[key]);
          fields := fields[key := value];
        }
      } else {
        fields := fields[key := a[key]];
      }
      pending := pending - {key};
    }
  }

  method RemoveDropped(s: map<Key, Value>, b: map<Key, Value>, a: map<Key, Value>) returns (fields: map<Key, Value>)
    ensures forall k :: Lookup(fields, k) == if k in b && k !in a then None else Lookup(s, k)
  {
    fields := s;
    var dropped := set k | k in b.Keys && k !in a.Keys;
    while dropped != {}
      invariant forall k | k in dropped :: k in b && k !in a
      invariant forall k | k !in dropped :: Lookup(fields, k) == if k in b && k !in a then None else Lookup(s, k)
      decreases |dropped|
    {
      var key :| key in dropped;
      fields := fields - {key};
      dropped := dropped - {key};
    }
  }

  // ---------------------------------------------------------------- laws

  /** Nothing changed: the source stays verbatim. */
  lemma UnchangedKeepsSource(source: Value, value: Value)
    ensures Merge(source, value, value) == source
  {
  }

  /** A source that is spelled canonically becomes the wanted value. */
  lemma {:induction false} CanonicalSourceBecomesAfter(before: Value, after: Value)
    ensures Merge(before, before, after) == after
    decreases after
  {
    if before != after {
      match (before, after) {
        case (Mapping(b), Mapping(a)) =>
          forall k
            ensures Lookup(Merge(before, before, after).fields, k) == Lookup(a, k)
          {
            MergeByField(b, b, a, k);
            if k in b && k in a {
              CanonicalSourceBecomesAfter(b[k], a[k]);
            }
          }
          MapsAgree(Merge(before, before, after).fields, a);
        case (Sequence(b), Sequence(a)) =>
          if |b| == |a| {
            forall i | 0 <= i < |a|
              ensures Merge(b[i], b[i], a[i]) == a[i]
            {
              CanonicalSourceBecomesAfter(b[i], a[i]);
            }
          }
        case _ =>
      }
    }
  }

  // ---------------------------------------------------------------- meaning

  /** How a source is read: leaves of a kind have many spellings, lists are read item by item, a record has known
      fields, some with a default that stands for an omitted key, and a union is read as the case its tag names. */
  datatype Schema =
    | Leaf(kind: string)
    | List(element: Schema)
    | Record(fields: map<Key, Field>)
    | Union(tag: Key, kind: string, cases: map<string, Schema>)

  datatype Field = Field(schema: Schema, default: Option<Value>)

  /** The canonical spelling of a leaf of some kind, or nothing for text the reader rejects. */
  type Spelling = (string, string) -> Option<string>

  function DenoteLeaf(spelling: Spelling, kind: string, value: Value): Option<Value> {
    if value.Scalar? && spelling(kind, value.text).Some? then Some(Scalar(spelling(kind, value.text).value)) else None
  }

  /** The case of a union that the tag of a value names. */
  function CaseOf(spelling: Spelling, tag: Key, kind: string, cases: map<string, Schema>, value: Value)
    : Option<string>
  {
    if value.Mapping? && tag in value.fields then
      match DenoteLeaf(spelling, kind, value.fields[tag])
      case Some(Scalar(name)) => if name in cases then Some(name) else None
      case _ => None
    else None
  }

  /** The canonical tree a source stands for; a source the reader rejects has none. */
  function Denote(spelling: Spelling, schema: Schema, value: Value): Option<Value>
    decreases schema
  {
    match schema
    case Leaf(kind) => DenoteLeaf(spelling, kind, value)
    case List(element) =>
      if value.Sequence? && (forall i | 0 <= i < |value.items| :: Denote(spelling, element, value.items[i]).Some?)
      then Some(Sequence(seq(|value.items|,
          i requires 0 <= i < |value.items| => Denote(spelling, element, value.items[i]).value)))
      else None
    case Record(fields) =>
      if value.Mapping? && value.fields.Keys <= fields.Keys
        && (forall k | k in value.fields :: Denote(spelling, fields[k].schema, value.fields[k]).Some?)
      then Some(Mapping(map k | k in fields.Keys && (k in value.fields || fields[k].default.Some?) ::
        if k in value.fields then Denote(spelling, fields[k].schema, value.fields[k]).value
          else fields[k].default.value))
      else None
    case Union(tag, kind, cases) =>
      match CaseOf(spelling, tag, kind, cases, value)
      case Some(name) => Denote(spelling, cases[name], value)
      case None => None
  }

  /** A value that is its own meaning. */
  predicate Canonical(spelling: Spelling, schema: Schema, value: Value) {
    Denote(spelling, schema, value) == Some(value)
  }

  /** Every case is a record that holds the tag as a leaf without a default, and its name is canonical. */
  predicate TagsRead(spelling: Spelling, tag: Key, kind: string, cases: map<string, Schema>) {
    forall name | name in cases ::
      && spelling(kind, name) == Some(name)
      && cases[name].Record? && tag in cases[name].fields && cases[name].fields[tag] == Field(Leaf(kind), None)
  }

  /** Two records read a key they share alike. */
  predicate SameSchema(first: map<Key, Field>, second: map<Key, Field>) {
    forall k | k in first && k in second :: first[k].schema == second[k].schema
  }

  /** Two records give a key they share the same default, or both none. */
  predicate SameDefault(first: map<Key, Field>, second: map<Key, Field>) {
    forall k | k in first && k in second :: first[k].default == second[k].default
  }

  predicate CasesShareSchemas(cases: map<string, Schema>) {
    forall t, u | t in cases && u in cases && cases[t].Record? && cases[u].Record? ::
      SameSchema(cases[t].fields, cases[u].fields)
  }

  predicate CasesShareDefaults(cases: map<string, Schema>) {
    forall t, u | t in cases && u in cases && cases[t].Record? && cases[u].Record? ::
      SameDefault(cases[t].fields, cases[u].fields)
  }

  /** The defaults of a schema are canonical, and the cases of a union read common keys alike. */
  predicate WellFormed(spelling: Spelling, schema: Schema)
    decreases schema
  {
    match schema
    case Leaf(_) => true
    case List(element) => WellFormed(spelling, element)
    case Record(fields) => forall k | k in fields ::
      WellFormed(spelling, fields[k].schema)
      && (fields[k].default.Some? ==> Canonical(spelling, fields[k].schema, fields[k].default.value))
    case Union(tag, kind, cases) =>
      && TagsRead(spelling, tag, kind, cases) && CasesShareSchemas(cases) && CasesShareDefaults(cases)
      && forall name | name in cases :: WellFormed(spelling, cases[name])
  }

  /** If the source means `before`, the merged source means `after`, whatever the edit changed, the case of a union
      included. */
  lemma {:induction false} MergedSourceMeansAfter(spelling: Spelling, schema: Schema, source: Value, before: Value,
      after: Value)
    requires WellFormed(spelling, schema)
    requires Denote(spelling, schema, source) == Some(before) && Canonical(spelling, schema, after)
    ensures Denote(spelling, schema, Merge(source, before, after)) == Some(after)
    decreases schema, 2
  {
    if before != after {
      match schema {
        case Leaf(_) =>
        case List(element) =>
          MergedListMeansAfter(spelling, element, source, before, after);
        case Record(fields) =>
          MergedRecordMeansAfter(spelling, fields, fields, source, before, after);
        case Union(tag, kind, cases) =>
          MergedUnionMeansAfter(spelling, tag, kind, cases, source, before, after);
      }
    }
  }

  /** A source read as one record, edited into a value of another that reads common keys alike. */
  lemma MergedRecordMeansAfter(
    spelling: Spelling, first: map<Key, Field>, second: map<Key, Field>, source: Value, before: Value, after: Value)
    requires before != after && SameSchema(first, second) && SameDefault(first, second)
    requires WellFormed(spelling, Record(first)) && WellFormed(spelling, Record(second))
    requires Denote(spelling, Record(first), source) == Some(before) && Canonical(spelling, Record(second), after)
    ensures Denote(spelling, Record(second), Merge(source, before, after)) == Some(after)
    decreases Record(second), 1
  {
    forall k
      ensures FieldMeans(spelling, second, Merge(source, before, after).fields, after.fields, k)
    {
      MergeByField(source.fields, before.fields, after.fields, k);
      DenotesByField(spelling, first, source, before, k);
      DenotesByField(spelling, second, after, after, k);
      if k in before.fields && k in after.fields && before.fields[k] != after.fields[k] {
        var slot := if k in source.fields then source.fields[k] else before.fields[k];
        MergedSourceMeansAfter(spelling, second[k].schema, slot, before.fields[k], after.fields[k]);
      }
    }
    FieldsMean(spelling, second, Merge(source, before, after), after);
  }

  /** The tag of a meaning names the case it was read as. */
  lemma MeaningIsTagged(
    spelling: Spelling, tag: Key, kind: string, cases: map<string, Schema>, value: Value, meaning: Value)
    requires TagsRead(spelling, tag, kind, cases)
    requires Denote(spelling, Union(tag, kind, cases), value) == Some(meaning)
    ensures var name := CaseOf(spelling, tag, kind, cases, value);
      && name.Some? && name.value in cases && cases[name.value].Record?
      && Denote(spelling, cases[name.value], value) == Some(meaning)
      && meaning.Mapping? && tag in meaning.fields && meaning.fields[tag] == Scalar(name.value)
  {
    var name := CaseOf(spelling, tag, kind, cases, value).value;
    DenotesByField(spelling, cases[name].fields, value, meaning, tag);
  }

  /** A value read as a case it is tagged with is read so by the union. */
  lemma TaggedIsRead(
    spelling: Spelling, tag: Key, kind: string, cases: map<string, Schema>, name: string, value: Value, meaning: Value)
    requires TagsRead(spelling, tag, kind, cases) && name in cases
    requires Denote(spelling, cases[name], value) == Some(meaning)
    requires meaning.Mapping? && tag in meaning.fields && meaning.fields[tag] == Scalar(name)
    ensures CaseOf(spelling, tag, kind, cases, value) == Some(name)
    ensures Denote(spelling, Union(tag, kind, cases), value) == Some(meaning)
  {
    DenotesByField(spelling, cases[name].fields, value, meaning, tag);
  }

  lemma MergedUnionMeansAfter(
    spelling: Spelling, tag: Key, kind: string, cases: map<string, Schema>, source: Value, before: Value, after: Value)
    requires before != after && WellFormed(spelling, Union(tag, kind, cases))
    requires Denote(spelling, Union(tag, kind, cases), source) == Some(before)
    requires Canonical(spelling, Union(tag, kind, cases), after)
    ensures Denote(spelling, Union(tag, kind, cases), Merge(source, before, after)) == Some(after)
    decreases Union(tag, kind, cases), 1
  {
    MeaningIsTagged(spelling, tag, kind, cases, source, before);
    MeaningIsTagged(spelling, tag, kind, cases, after, after);
    var t, u := CaseOf(spelling, tag, kind, cases, source).value, CaseOf(spelling, tag, kind, cases, after).value;
    MergedRecordMeansAfter(spelling, cases[t].fields, cases[u].fields, source, before, after);
    TaggedIsRead(spelling, tag, kind, cases, u, Merge(source, before, after), after);
  }

  lemma MergedListMeansAfter(spelling: Spelling, element: Schema, source: Value, before: Value, after: Value)
    requires WellFormed(spelling, element) && before != after
    requires Denote(spelling, List(element), source) == Some(before) && Canonical(spelling, List(element), after)
    ensures Denote(spelling, List(element), Merge(source, before, after)) == Some(after)
    decreases element, 3
  {
    var s, b, a := source.items, before.items, after.items;
    assert forall i | 0 <= i < |s| :: Denote(spelling, element, s[i]) == Some(b[i]);
    assert forall i | 0 <= i < |a| :: Canonical(spelling, element, a[i]) by {
      forall i | 0 <= i < |a|
        ensures Canonical(spelling, element, a[i])
      {
        assert Denote(spelling, List(element), after).value.items[i] == a[i];
      }
    }
    if |a| == |b| {
      var merged := Merge(source, before, after).items;
      forall i | 0 <= i < |a|
        ensures Denote(spelling, element, merged[i]) == Some(a[i])
      {
        MergedSourceMeansAfter(spelling, element, s[i], b[i], a[i]);
      }
      assert Denote(spelling, List(element), Sequence(merged)).value.items == a;
    }
  }

  /** Under one key, `value` is read as `meaning`. */
  predicate FieldMeans(spelling: Spelling, fields: map<Key, Field>, value: map<Key, Value>, meaning: map<Key, Value>,
      key: Key) {
    if key !in fields then key !in value && key !in meaning
    else if key in value then Denote(spelling, fields[key].schema, value[key]) == Lookup(meaning, key) && key in meaning
    else Lookup(meaning, key) == fields[key].default
  }

  lemma DenotesByField(spelling: Spelling, fields: map<Key, Field>, value: Value, meaning: Value, key: Key)
    requires Denote(spelling, Record(fields), value) == Some(meaning)
    ensures value.Mapping? && meaning.Mapping? && FieldMeans(spelling, fields, value.fields, meaning.fields, key)
  {
  }

  lemma FieldsMean(spelling: Spelling, fields: map<Key, Field>, value: Value, meaning: Value)
    requires value.Mapping? && meaning.Mapping?
    requires forall k :: FieldMeans(spelling, fields, value.fields, meaning.fields, k)
    ensures Denote(spelling, Record(fields), value) == Some(meaning)
  {
    forall k | k in value.fields
      ensures k in fields && Denote(spelling, fields[k].schema, value.fields[k]).Some?
    {
      assert FieldMeans(spelling, fields, value.fields, meaning.fields, k);
    }
    var read := Denote(spelling, Record(fields), value).value.fields;
    forall k
      ensures Lookup(read, k) == Lookup(meaning.fields, k)
    {
      assert FieldMeans(spelling, fields, value.fields, meaning.fields, k);
    }
    MapsAgree(read, meaning.fields);
  }

  // ---------------------------------------------------------------- when the law holds of a union

  /** Every edit of a source read by `schema` is written back with the meaning wanted. */
  ghost predicate MergeLaw(spelling: Spelling, schema: Schema) {
    forall source: Value, before: Value, after: Value
      | Denote(spelling, schema, source) == Some(before) && Canonical(spelling, schema, after) ::
      Denote(spelling, schema, Merge(source, before, after)) == Some(after)
  }

  /** Over cases that read common keys alike, the law holds exactly when they also give them the same defaults. */
  lemma UnionLawExactlyWhenDefaultsAgree(spelling: Spelling, tag: Key, kind: string, cases: map<string, Schema>)
    requires TagsRead(spelling, tag, kind, cases) && CasesShareSchemas(cases)
    requires forall name | name in cases :: WellFormed(spelling, cases[name])
    ensures MergeLaw(spelling, Union(tag, kind, cases)) <==> CasesShareDefaults(cases)
  {
    var schema := Union(tag, kind, cases);
    if CasesShareDefaults(cases) {
      forall source: Value, before: Value, after: Value
        | Denote(spelling, schema, source) == Some(before) && Canonical(spelling, schema, after)
        ensures Denote(spelling, schema, Merge(source, before, after)) == Some(after)
      {
        MergedSourceMeansAfter(spelling, schema, source, before, after);
      }
    } else {
      var t, u, k :| t in cases && u in cases && k in cases[t].fields && k in cases[u].fields
        && cases[t].fields[k].default != cases[u].fields[k].default;
      if cases[t].fields[k].default.Some? {
        DefaultIsLost(spelling, tag, kind, cases, t, u, k);
      } else {
        DefaultIsLost(spelling, tag, kind, cases, u, t, k);
      }
    }
  }

  /** The tag, and the defaults of a record. */
  function Defaults(fields: map<Key, Field>, tag: Key, name: string): map<Key, Value> {
    map k | k in fields && (k == tag || fields[k].default.Some?) ::
      if k == tag then Scalar(name) else fields[k].default.value
  }

  lemma DefaultsAreMeant(spelling: Spelling, fields: map<Key, Field>, tag: Key, kind: string, name: string)
    requires WellFormed(spelling, Record(fields)) && spelling(kind, name) == Some(name)
    requires tag in fields && fields[tag] == Field(Leaf(kind), None)
    ensures Denote(spelling, Record(fields), Mapping(map[tag := Scalar(name)])) ==
      Some(Mapping(Defaults(fields, tag, name)))
  {
    var source, meaning := Mapping(map[tag := Scalar(name)]), Mapping(Defaults(fields, tag, name));
    forall k
      ensures FieldMeans(spelling, fields, source.fields, meaning.fields, k)
    {
    }
    FieldsMean(spelling, fields, source, meaning);
  }

  lemma DefaultsWithKeyAreCanonical(
    spelling: Spelling, fields: map<Key, Field>, tag: Key, kind: string, name: string, key: Key, value: Value)
    requires WellFormed(spelling, Record(fields)) && spelling(kind, name) == Some(name)
    requires tag in fields && fields[tag] == Field(Leaf(kind), None)
    requires key in fields && key != tag && Canonical(spelling, fields[key].schema, value)
    ensures Canonical(spelling, Record(fields), Mapping(Defaults(fields, tag, name)[key := value]))
  {
    var after := Mapping(Defaults(fields, tag, name)[key := value]);
    forall k
      ensures FieldMeans(spelling, fields, after.fields, after.fields, k)
    {
    }
    FieldsMean(spelling, fields, after, after);
  }

  /** An unchanged key that the source leaves out is read as the default of the case the edit moves to. */
  lemma OmittedKeyIsReread(
    spelling: Spelling, tag: Key, kind: string, cases: map<string, Schema>, source: Value, before: Value, after: Value,
    u: string, key: Key)
    requires TagsRead(spelling, tag, kind, cases)
    requires source.Mapping? && before.Mapping? && after.Mapping? && before != after
    requires CaseOf(spelling, tag, kind, cases, after) == Some(u) && Canonical(spelling, cases[u], after)
    requires key in cases[u].fields && key !in source.fields
    requires key in before.fields && key in after.fields && before.fields[key] == after.fields[key]
    requires cases[u].fields[key].default != Some(after.fields[key])
    ensures Denote(spelling, Union(tag, kind, cases), Merge(source, before, after)) != Some(after)
  {
    var merged := Merge(source, before, after);
    MergeByField(source.fields, before.fields, after.fields, key);
    if Denote(spelling, Union(tag, kind, cases), merged) == Some(after) {
      MeaningIsTagged(spelling, tag, kind, cases, merged, after);
      DenotesByField(spelling, cases[u].fields, after, after, tag);
      DenotesByField(spelling, cases[u].fields, merged, after, key);
    }
  }

  /** A source that leaves a key to the default of its case loses it when the edit moves to a case with another one. */
  lemma DefaultIsLost(
    spelling: Spelling, tag: Key, kind: string, cases: map<string, Schema>, t: string, u: string, key: Key)
    requires TagsRead(spelling, tag, kind, cases) && CasesShareSchemas(cases)
    requires forall name | name in cases :: WellFormed(spelling, cases[name])
    requires t in cases && u in cases && key in cases[t].fields && key in cases[u].fields
    requires cases[t].fields[key].default.Some? && cases[t].fields[key].default != cases[u].fields[key].default
    ensures !MergeLaw(spelling, Union(tag, kind, cases))
  {
    var first, second := cases[t].fields, cases[u].fields;
    var wanted := first[key].default.value;
    var source, before := Mapping(map[tag := Scalar(t)]), Mapping(Defaults(first, tag, t));
    var after := Mapping(Defaults(second, tag, u)[key := wanted]);
    assert Canonical(spelling, second[key].schema, wanted) by {
      assert SameSchema(first, second);
    }
    assert Denote(spelling, Union(tag, kind, cases), source) == Some(before) by {
      DefaultsAreMeant(spelling, first, tag, kind, t);
      TaggedIsRead(spelling, tag, kind, cases, t, source, before);
    }
    assert CaseOf(spelling, tag, kind, cases, after) == Some(u) && Canonical(spelling, cases[u], after)
      && Canonical(spelling, Union(tag, kind, cases), after) by {
      DefaultsWithKeyAreCanonical(spelling, second, tag, kind, u, key, wanted);
      TaggedIsRead(spelling, tag, kind, cases, u, after, after);
    }
    assert before.fields[tag] != after.fields[tag];
    OmittedKeyIsReread(spelling, tag, kind, cases, source, before, after, u, key);
  }

  // ---------------------------------------------------------------- spelling

  datatype Step = Member(key: Key) | Item(index: nat)

  /** The subtree at a path, if there is one. */
  function At(value: Value, path: seq<Step>): Option<Value>
    decreases |path|
  {
    if path == [] then Some(value)
    else match (value, path[0])
      case (Mapping(fields), Member(key)) => if key in fields then At(fields[key], path[1..]) else None
      case (Sequence(items), Item(index)) => if index < |items| then At(items[index], path[1..]) else None
      case _ => None
  }

  /** Along `path`, the edit keeps the shape the source is merged by, and at its end, or before, changes nothing. */
  predicate Untouched(source: Value, before: Value, after: Value, path: seq<Step>)
    decreases |path|
  {
    if before == after then true
    else if path == [] then false
    else match (source, before, after, path[0])
      case (Mapping(s), Mapping(b), Mapping(a), Member(key)) =>
        if key in b && key in a then
          b[key] == a[key] || (key in s && Untouched(s[key], b[key], a[key], path[1..]))
        else key !in b && key !in a
      case (Sequence(s), Sequence(b), Sequence(a), Item(index)) =>
        |s| == |b| == |a| && index < |a| && Untouched(s[index], b[index], a[index], path[1..])
      case _ => false
  }

  /** Every unchanged part of the source keeps its spelling, including a default it leaves out. */
  lemma {:induction false} UntouchedKeepsSpelling(source: Value, before: Value, after: Value, path: seq<Step>)
    requires Untouched(source, before, after, path)
    ensures At(Merge(source, before, after), path) == At(source, path)
    decreases |path|
  {
    if before != after {
      match (source, before, after, path[0]) {
        case (Mapping(s), Mapping(b), Mapping(a), Member(key)) =>
          MergeByField(s, b, a, key);
          if key in b && key in a && b[key] != a[key] {
            UntouchedKeepsSpelling(s[key], b[key], a[key], path[1..]);
          }
        case (Sequence(s), Sequence(b), Sequence(a), Item(index)) =>
          UntouchedKeepsSpelling(s[index], b[index], a[index], path[1..]);
      }
    }
  }
}
