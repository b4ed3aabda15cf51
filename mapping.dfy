/**
 * The mapping from API responses to point features: the declared 15-field
 * schema, the attribute list built for one feature, and the drop rules of
 * the nested loop over `response_list` and each response's `features`.
 */
module Mapping {
  import opened Wrappers
  import opened Api

  /** `QVariant.String` or `QVariant.Double`. */
  datatype FieldType = StringType | DoubleType

  datatype Field = Field(name: string, fieldType: FieldType)

  /** The fields added to the output layer, in declaration order. */
  const SCHEMA: seq<Field> := [
    Field("label", StringType),
    Field("score", DoubleType),
    Field("housenumber", StringType),
    Field("id", StringType),
    Field("name", StringType),
    Field("postcode", StringType),
    Field("citycode", StringType),
    Field("x", DoubleType),
    Field("y", DoubleType),
    Field("city", StringType),
    Field("district", StringType),
    Field("context", StringType),
    Field("type", StringType),
    Field("importance", DoubleType),
    Field("street", StringType)
  ]

  /** The schema has 15 distinct field names; exactly `score`, `x`, `y` and `importance` are numeric. */
  lemma SchemaShape()
    ensures |SCHEMA| == 15
    ensures forall i, j :: 0 <= i < j < |SCHEMA| ==> SCHEMA[i].name != SCHEMA[j].name
    ensures forall i :: 0 <= i < |SCHEMA| ==>
              (SCHEMA[i].fieldType == DoubleType <==> SCHEMA[i].name in {"score", "x", "y", "importance"})
  {
  }

    datatype Point = Point(x: real, y: real)

  /** A `QgsFeature` with a point geometry and its attribute list. */
  datatype PointFeature = PointFeature(geometry: Point, attributes: seq<Value>)

  /** Python's `dict.get(key, default)`. */
  function Get(properties: map<string, Value>, key: string, default: Value): (v: Value)
    ensures key in properties ==> v == properties[key]
    ensures key !in properties ==> v == default
  {
    if key in properties then properties[key] else default
  }

  /** The attribute list built for a feature whose coordinates are `[x, y]`. */
  function Attributes(f: Feature): (attrs: seq<Value>)
    requires |f.coordinates| == 2
    ensures |attrs| == |SCHEMA|
    ensures attrs[7] == Number(f.coordinates[0]) && attrs[8] == Number(f.coordinates[1])
  {
    var p := f.properties;
    var x, y := f.coordinates[0], f.coordinates[1];
    [ Get(p, "label", Text("")),
      Get(p, "score", Number(0.0)),
      Get(p, "housenumber", Text("")),
      Get(p, "id", Text("")),
      Get(p, "name", Text("")),
      Get(p, "postcode", Text("")),
      Get(p, "citycode", Text("")),
      Number(x),
      Number(y),
      Get(p, "city", Text("")),
      Get(p, "district", Text("")),
      Get(p, "context", Text("")),
      Get(p, "type", Text("")),
      Get(p, "importance", Number(0.0)),
      Get(p, "street", Text(""))
    ]
  }

  /** The value a field of the given type takes when the property is absent. */
  function Default(t: FieldType): (v: Value)
  {
    match t
    case StringType => Text("")
    case DoubleType => Number(0.0)
  }

  /**
   * What the schema says a slot should hold: the coordinates for `x` and
   * `y`, otherwise the property of the field's name, or the type's default.
   */
  function SlotValue(f: Feature, field: Field): (v: Value)
    requires |f.coordinates| == 2
  {
    if field.name == "x" then Number(f.coordinates[0])
    else if field.name == "y" then Number(f.coordinates[1])
    else Get(f.properties, field.name, Default(field.fieldType))
  }

  /**
   * The attribute list has one slot per schema field, in schema order, and
   * each slot holds what that field asks for: a present property unchanged,
   * `''` for a missing text property, `0` for a missing score or importance,
   * and the two coordinates unchanged in `x` and `y`.
   */
  lemma AttributesFollowSchema(f: Feature)
    requires |f.coordinates| == 2
    ensures |Attributes(f)| == |SCHEMA| == 15
    ensures forall i :: 0 <= i < |SCHEMA| ==> Attributes(f)[i] == SlotValue(f, SCHEMA[i])
    ensures forall i :: 0 <= i < |SCHEMA| && SCHEMA[i].name !in f.properties && SCHEMA[i].name != "x" && SCHEMA[i].name != "y" ==>
              Attributes(f)[i] == Default(SCHEMA[i].fieldType)
  {
  }

  /** The points one feature adds: none without coordinates, else exactly one. */
  function FeaturePoints(f: Feature): (points: seq<PointFeature>)
    ensures |points| <= 1
    ensures forall p :: p in points ==> |p.attributes| == |SCHEMA|
  {
    if |f.coordinates| == 0 then []
    else [PointFeature(Point(f.coordinates[0], f.coordinates[1]), Attributes(f))]
  }

  /** The inner loop over `data['features']`. */
  function FeatureListPoints(features: seq<Feature>): (points: seq<PointFeature>)
    ensures |points| <= |features|
    ensures forall p :: p in points ==> |p.attributes| == |SCHEMA|
  {
    if features == [] then []
    else FeaturePoints(features[0]) + FeatureListPoints(features[1..])
  }

  /** What one entry of `response_list` adds: nothing for `None` or a body without `features`. */
  function ResponsePoints(entry: Option<Response>): (points: seq<PointFeature>)
    ensures entry.None? || entry.value.features.None? ==> points == []
    ensures forall p :: p in points ==> |p.attributes| == |SCHEMA|
  {
    match entry
    case None => []
    case Some(data) =>
      match data.features
      case None => []
      case Some(features) => FeatureListPoints(features)
  }

  /** The outer loop over `response_list`. */
  function Points(responseList: seq<Option<Response>>): (points: seq<PointFeature>)
    ensures forall p :: p in points ==> |p.attributes| == |SCHEMA|
  {
    if responseList == [] then []
    else ResponsePoints(responseList[0]) + Points(responseList[1..])
  }

  lemma {:induction false} FeatureListPointsAppend(a: seq<Feature>, b: seq<Feature>)
    ensures FeatureListPoints(a + b) == FeatureListPoints(a) + FeatureListPoints(b)
  {
    if a == [] {
      assert a + b == b;
    } else {
      var ab := a + b;
      assert ab[0] == a[0] && ab[1..] == a[1..] + b;
      FeatureListPointsAppend(a[1..], b);
      calc {
        FeatureListPoints(ab);
        FeaturePoints(a[0]) + FeatureListPoints(a[1..] + b);
        FeaturePoints(a[0]) + (FeatureListPoints(a[1..]) + FeatureListPoints(b));
        (FeaturePoints(a[0]) + FeatureListPoints(a[1..])) + FeatureListPoints(b);
      }
    }
  }

  lemma {:induction false} PointsAppend(a: seq<Option<Response>>, b: seq<Option<Response>>)
    ensures Points(a + b) == Points(a) + Points(b)
  {
    if a == [] {
      assert a + b == b;
    } else {
      var ab := a + b;
      assert ab[0] == a[0] && ab[1..] == a[1..] + b;
      PointsAppend(a[1..], b);
      calc {
        Points(ab);
        ResponsePoints(a[0]) + Points(a[1..] + b);
        ResponsePoints(a[0]) + (Points(a[1..]) + Points(b));
        (ResponsePoints(a[0]) + Points(a[1..])) + Points(b);
      }
    }
  }

  lemma FeatureListPointsSnoc(features: seq<Feature>, f: Feature)
    ensures FeatureListPoints(features + [f]) == FeatureListPoints(features) + FeaturePoints(f)
  {
    FeatureListPointsAppend(features, [f]);
    assert FeatureListPoints([f]) == FeaturePoints(f) + FeatureListPoints([]);
  }

  lemma PointsSnoc(responseList: seq<Option<Response>>, entry: Option<Response>)
    ensures Points(responseList + [entry]) == Points(responseList) + ResponsePoints(entry)
  {
    PointsAppend(responseList, [entry]);
    assert Points([entry]) == ResponsePoints(entry) + Points([]);
  }

  lemma PointsStep(responseList: seq<Option<Response>>, index: nat)
    requires index < |responseList|
    ensures Points(responseList[..index + 1]) == Points(responseList[..index]) + ResponsePoints(responseList[index])
  {
    assert responseList[..index + 1] == responseList[..index] + [responseList[index]];
    PointsSnoc(responseList[..index], responseList[index]);
  }

  /** A `None` entry, or a body without `features`, adds no point wherever it stands. */
  lemma DroppedResponseAddsNothing(before: seq<Option<Response>>, entry: Option<Response>, after: seq<Option<Response>>)
    requires entry.None? || entry.value.features.None?
    ensures Points(before + [entry] + after) == Points(before + after)
  {
    assert ResponsePoints(entry) == [];
    PointsSnoc(before, entry);
    PointsAppend(before + [entry], after);
    PointsAppend(before, after);
  }

  /**
   * A feature without coordinates adds no point; any other feature adds
   * exactly its own point, between the points of the features around it.
   */
  lemma FeatureAddsItsPoint(before: seq<Feature>, f: Feature, after: seq<Feature>)
    ensures |f.coordinates| == 0 ==>
              FeatureListPoints(before + [f] + after) == FeatureListPoints(before + after)
    ensures |f.coordinates| == 2 ==>
              FeatureListPoints(before + [f] + after)
                == FeatureListPoints(before)
                   + [PointFeature(Point(f.coordinates[0], f.coordinates[1]), Attributes(f))]
                   + FeatureListPoints(after)
  {
    FeatureListPointsAppend(before + [f], after);
    FeatureListPointsAppend(before, [f]);
    FeatureListPointsAppend(before, after);
    assert FeatureListPoints([f]) == FeaturePoints(f) by {
      assert [f][1..] == [];
    }
  }

  /** At most one point per feature, and exactly one each when every feature has coordinates. */
  lemma {:induction false} FeatureListPointsCount(features: seq<Feature>)
    ensures |FeatureListPoints(features)| <= |features|
    ensures |FeatureListPoints(features)| == |features| <==>
              forall i :: 0 <= i < |features| ==> |features[i].coordinates| == 2
  {
    if features != [] {
      FeatureListPointsCount(features[1..]);
      if |features[0].coordinates| == 2 {
        forall i | 1 <= i < |features| ensures features[i] == features[1..][i - 1] { }
      }
    }
  }

  /** An entry yields feature `f` when it is a body whose `features` hold `f` with coordinates. */
  predicate Yields(entry: Option<Response>, f: Feature)
  {
    entry.Some? && entry.value.features.Some? && f in entry.value.features.value && |f.coordinates| == 2
  }

  function PointOf(f: Feature): (p: PointFeature)
    requires |f.coordinates| == 2
  {
    PointFeature(Point(f.coordinates[0], f.coordinates[1]), Attributes(f))
  }

  lemma {:induction false} FeatureListPointsMembers(features: seq<Feature>, p: PointFeature)
    ensures p in FeatureListPoints(features) <==>
              exists f :: f in features && |f.coordinates| == 2 && p == PointOf(f)
  {
    if features != [] {
      FeatureListPointsMembers(features[1..], p);
      assert features == [features[0]] + features[1..];
    }
  }

  /**
   * The layer receives exactly the points of the located features of the
   * kept responses: every point comes from such a feature, and every such
   * feature gives its point.
   */
  lemma {:induction false} PointsMembers(responseList: seq<Option<Response>>, p: PointFeature)
    ensures p in Points(responseList) <==>
              exists i, f :: 0 <= i < |responseList| && Yields(responseList[i], f) && p == PointOf(f)
  {
    if responseList != [] {
      PointsMembers(responseList[1..], p);
      var head := responseList[0];
      if head.Some? && head.value.features.Some? {
        FeatureListPointsMembers(head.value.features.value, p);
      }
      if p in Points(responseList) {
        if p in ResponsePoints(head) {
          var f :| f in head.value.features.value && |f.coordinates| == 2 && p == PointOf(f);
          assert Yields(responseList[0], f);
        } else {
          var i, f :| 0 <= i < |responseList[1..]| && Yields(responseList[1..][i], f) && p == PointOf(f);
          assert Yields(responseList[i + 1], f);
        }
      } else {
        forall i, f | 0 <= i < |responseList| && Yields(responseList[i], f)
          ensures p != PointOf(f)
        {
          if i > 0 {
            assert Yields(responseList[1..][i - 1], f);
          }
        }
      }
    }
  }

  /**
   * Responses to `limit=1` requests hold at most one feature; then the layer
   * gets at most one point per address row.
   */
  lemma {:induction false} AtMostOnePointPerResponse(responseList: seq<Option<Response>>)
    requires forall i :: 0 <= i < |responseList| && responseList[i].Some? && responseList[i].value.features.Some? ==>
               |responseList[i].value.features.value| <= 1
    ensures |Points(responseList)| <= |responseList|
  {
    if responseList != [] {
      AtMostOnePointPerResponse(responseList[1..]);
      var head := responseList[0];
      if head.Some? && head.value.features.Some? {
        FeatureListPointsCount(head.value.features.value);
      }
    }
  }

  /** The points of an entry if only its first feature were read. */
  function FirstFeaturePoints(entry: Option<Response>): (points: seq<PointFeature>)
  {
    if entry.Some? && entry.value.features.Some? && |entry.value.features.value| > 0
    then FeaturePoints(entry.value.features.value[0])
    else []
  }

  /**
   * Reading only the first feature of a response gives the same points as
   * the loop over all of them, whenever the response has at most one feature.
   */
  lemma FirstFeatureAgrees(entry: Option<Response>)
    requires entry.Some? && entry.value.features.Some? ==> |entry.value.features.value| <= 1
    ensures ResponsePoints(entry) == FirstFeaturePoints(entry)
  {
    if entry.Some? && entry.value.features.Some? && |entry.value.features.value| == 1 {
      var features := entry.value.features.value;
      assert features[1..] == [];
      assert FeatureListPoints(features) == FeaturePoints(features[0]) + FeatureListPoints([]);
    }
  }
}
