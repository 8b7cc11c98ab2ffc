/**
  The guarded read `features != null && features.Length > featureIndex ? features[featureIndex] : …`
  shared by the effect controllers. The guard does not reject a negative index, so
  with a feature array present a negative index throws.
*/
module FeatureLookup {
  import opened Wrappers

  datatype Lookup = Absent | Found(value: real) | Throws

  function Read(features: Option<seq<real>>, index: int): (l: Lookup)
    ensures l.Found? <==> features.Some? && 0 <= index < |features.value|
    ensures l.Found? ==> l.value == features.value[index]
    ensures l.Throws? <==> features.Some? && index < 0
    ensures l.Absent? <==> features.None? || index >= |features.value|
  {
    if features.Some? && |features.value| > index then
      if index < 0 then Throws else Found(features.value[index])
    else Absent
  }
}
