/**
  `TcpServer.ExtractData`: a trimmed message such as
  `_NoiseIntensity:0.5,_NoiseSpeed:0.00001,cameratransform:10/5.9/-30.7` is split on
  ',', each segment on ':', and the three known keys fill optional fields.
  `float.TryParse` with the invariant culture is the parameter `parse`.
*/
module TcpParse {
  import opened Wrappers
  import opened Text
  import opened Vectors

  /** `float.TryParse(s, NumberStyles.Float, CultureInfo.InvariantCulture, out v)`. */
  type Parser = string -> Option<real>

  /** The result record: a field is present only when some segment supplied it. */
  datatype ParsedTcpData = ParsedTcpData(
    noiseIntensity: Option<real>,
    noiseSpeed: Option<real>,
    cameraTransform: Option<Vec3>)

  const Nothing: ParsedTcpData := ParsedTcpData(None, None, None)

  const IntensityKey: string := "_NoiseIntensity"
  const SpeedKey: string := "_NoiseSpeed"
  const TransformKey: string := "cameratransform"

  /** What one well-formed, recognised segment with a parsable value supplies. */
  datatype Field = Intensity(intensity: real) | Speed(speed: real) | Transform(position: Vec3)

  /** The three result fields, to speak about one of them at a time. */
  datatype Slot = IntensitySlot | SpeedSlot | TransformSlot

  function SlotOf(f: Field): Slot {
    match f
    case Intensity(_) => IntensitySlot
    case Speed(_) => SpeedSlot
    case Transform(_) => TransformSlot
  }

  /** Whether a classified segment writes the given field. */
  predicate Fills(c: Option<Field>, s: Slot) {
    c.Some? && SlotOf(c.value) == s
  }

  /** The given field of a result, as the `Field` that put it there. */
  function Get(d: ParsedTcpData, s: Slot): (r: Option<Field>)
    ensures r.Some? ==> SlotOf(r.value) == s
  {
    match s
    case IntensitySlot => if d.noiseIntensity.Some? then Some(Intensity(d.noiseIntensity.value)) else None
    case SpeedSlot => if d.noiseSpeed.Some? then Some(Speed(d.noiseSpeed.value)) else None
    case TransformSlot => if d.cameraTransform.Some? then Some(Transform(d.cameraTransform.value)) else None
  }

  /** `x/y/z`: exactly three '/'-separated pieces, each parsable. */
  function ParseTransform(value: string, parse: Parser): (r: Option<Vec3>)
    ensures r.Some? <==> (|Split(value, '/')| == 3
      && parse(Split(value, '/')[0]).Some? && parse(Split(value, '/')[1]).Some?
      && parse(Split(value, '/')[2]).Some?)
    ensures r.Some? ==> r.value == Vec3(parse(Split(value, '/')[0]).value,
      parse(Split(value, '/')[1]).value, parse(Split(value, '/')[2]).value)
  {
    var coords := Split(value, '/');
    if |coords| != 3 then None
    else
      var x, y, z := parse(coords[0]), parse(coords[1]), parse(coords[2]);
      if x.Some? && y.Some? && z.Some? then Some(Vec3(x.value, y.value, z.value)) else None
  }

  /** One comma-separated segment: nothing unless it splits on ':' into exactly two
      parts whose trimmed key is one of the three known keys (ignoring case) and
      whose trimmed value parses. */
  function Classify(part: string, parse: Parser): (r: Option<Field>)
    ensures |Split(part, ':')| != 2 ==> r.None?
    ensures r.Some? ==> |Split(part, ':')| == 2
    ensures r.Some? && r.value.Intensity? ==>
      EqualsIgnoreCase(Trim(Split(part, ':')[0]), IntensityKey)
      && parse(Trim(Split(part, ':')[1])) == Some(r.value.intensity)
    ensures r.Some? && r.value.Speed? ==>
      EqualsIgnoreCase(Trim(Split(part, ':')[0]), SpeedKey)
      && parse(Trim(Split(part, ':')[1])) == Some(r.value.speed)
    ensures r.Some? && r.value.Transform? ==>
      EqualsIgnoreCase(Trim(Split(part, ':')[0]), TransformKey)
      && ParseTransform(Trim(Split(part, ':')[1]), parse) == Some(r.value.position)
    ensures |Split(part, ':')| == 2 && !KnownKey(Trim(Split(part, ':')[0])) ==> r.None?
    ensures var kv := Split(part, ':');
      |kv| == 2 && EqualsIgnoreCase(Trim(kv[0]), IntensityKey) && parse(Trim(kv[1])).Some? ==>
        r == Some(Intensity(parse(Trim(kv[1])).value))
    ensures var kv := Split(part, ':');
      |kv| == 2 && EqualsIgnoreCase(Trim(kv[0]), SpeedKey) && parse(Trim(kv[1])).Some? ==>
        r == Some(Speed(parse(Trim(kv[1])).value))
    ensures var kv := Split(part, ':');
      |kv| == 2 && EqualsIgnoreCase(Trim(kv[0]), TransformKey) && ParseTransform(Trim(kv[1]), parse).Some? ==>
        r == Some(Transform(ParseTransform(Trim(kv[1]), parse).value))
  {
    var keyValue := Split(part, ':');
    if |keyValue| != 2 then None
    else
      var key, value := Trim(keyValue[0]), Trim(keyValue[1]);
      KeysExclusive(key);
      if EqualsIgnoreCase(key, IntensityKey) then
        match parse(value)
        case Some(v) => Some(Intensity(v))
        case None => None
      else if EqualsIgnoreCase(key, SpeedKey) then
        match parse(value)
        case Some(v) => Some(Speed(v))
        case None => None
      else if EqualsIgnoreCase(key, TransformKey) then
        match ParseTransform(value, parse)
        case Some(p) => Some(Transform(p))
        case None => None
      else None
  }

  /** No key matches two of the three known keys, so the order in which they are tested
      does not matter. */
  lemma KeysExclusive(key: string)
    ensures !(EqualsIgnoreCase(key, IntensityKey) && EqualsIgnoreCase(key, SpeedKey))
    ensures !(EqualsIgnoreCase(key, IntensityKey) && EqualsIgnoreCase(key, TransformKey))
    ensures !(EqualsIgnoreCase(key, SpeedKey) && EqualsIgnoreCase(key, TransformKey))
  {
    assert Upper(IntensityKey[0]) != Upper(TransformKey[0]);
  }

  predicate KnownKey(key: string) {
    EqualsIgnoreCase(key, IntensityKey) || EqualsIgnoreCase(key, SpeedKey)
    || EqualsIgnoreCase(key, TransformKey)
  }

  /** Writes one classified segment into the result; nothing else changes. */
  function Apply(d: ParsedTcpData, c: Option<Field>): (r: ParsedTcpData)
    ensures forall s :: Get(r, s) == (if Fills(c, s) then c else Get(d, s))
  {
    match c
    case None => d
    case Some(Intensity(v)) => d.(noiseIntensity := Some(v))
    case Some(Speed(v)) => d.(noiseSpeed := Some(v))
    case Some(Transform(p)) => d.(cameraTransform := Some(p))
  }

  /** The segments classified in order, then written one after the other. */
  function Fold(cs: seq<Option<Field>>): ParsedTcpData {
    if cs == [] then Nothing else Apply(Fold(cs[..|cs| - 1]), cs[|cs| - 1])
  }

  function Classified(parts: seq<string>, parse: Parser): (cs: seq<Option<Field>>)
    ensures |cs| == |parts|
    ensures forall k :: 0 <= k < |parts| ==> cs[k] == Classify(parts[k], parse)
  {
    seq(|parts|, k requires 0 <= k < |parts| => Classify(parts[k], parse))
  }

  /** `ExtractData(inputString)`. */
  function ExtractData(input: string, parse: Parser): ParsedTcpData {
    Fold(Classified(Split(input, ','), parse))
  }

  /** Reference for one field: it is absent exactly when no segment supplies it, and
      otherwise it is what the last supplying segment supplied. */
  predicate LastSupplied(cs: seq<Option<Field>>, s: Slot, r: Option<Field>) {
    if r.None? then forall k :: 0 <= k < |cs| ==> !Fills(cs[k], s)
    else exists k :: (0 <= k < |cs| && cs[k] == r && Fills(cs[k], s)
      && forall j :: k < j < |cs| ==> !Fills(cs[j], s))
  }

  lemma {:induction false} FoldIsLastSupplied(cs: seq<Option<Field>>, s: Slot)
    ensures LastSupplied(cs, s, Get(Fold(cs), s))
  {
    if cs != [] {
      var init, last := cs[..|cs| - 1], cs[|cs| - 1];
      FoldIsLastSupplied(init, s);
      LastSuppliedExtend(init, last, s, Get(Fold(init), s));
    }
  }

  lemma LastSuppliedExtend(init: seq<Option<Field>>, last: Option<Field>, s: Slot, before: Option<Field>)
    requires LastSupplied(init, s, before)
    ensures LastSupplied(init + [last], s, if Fills(last, s) then last else before)
  {
    var cs := init + [last];
    assert forall k :: 0 <= k < |init| ==> cs[k] == init[k];
    if Fills(last, s) {
      assert cs[|init|] == last;
    } else if before.Some? {
      var k :| 0 <= k < |init| && init[k] == before && Fills(init[k], s)
        && forall j :: k < j < |init| ==> !Fills(init[j], s);
      assert cs[k] == before;
    }
  }

  /** A field of `ExtractData` is present exactly when some segment supplies it, and then
      holds the value of the last segment that does: later valid occurrences win, and
      malformed, unknown or unparsable segments change nothing. */
  lemma ExtractDataLastValidWins(input: string, parse: Parser, s: Slot)
    ensures LastSupplied(Classified(Split(input, ','), parse), s, Get(ExtractData(input, parse), s))
  {
    FoldIsLastSupplied(Classified(Split(input, ','), parse), s);
  }

  /** Merging two results: the second one's present fields win. */
  function Merge(d: ParsedTcpData, e: ParsedTcpData): (r: ParsedTcpData)
    ensures forall s :: Get(r, s) == (if Get(e, s).Some? then Get(e, s) else Get(d, s))
  {
    ParsedTcpData(
      if e.noiseIntensity.Some? then e.noiseIntensity else d.noiseIntensity,
      if e.noiseSpeed.Some? then e.noiseSpeed else d.noiseSpeed,
      if e.cameraTransform.Some? then e.cameraTransform else d.cameraTransform)
  }

  lemma {:induction false} FoldAppend(cs: seq<Option<Field>>, ds: seq<Option<Field>>)
    ensures Fold(cs + ds) == Merge(Fold(cs), Fold(ds))
    decreases |ds|
  {
    if ds == [] {
      assert cs + ds == cs;
    } else {
      var init, last := ds[..|ds| - 1], ds[|ds| - 1];
      FoldAppend(cs, init);
      assert (cs + ds)[..|cs + ds| - 1] == cs + init;
      assert (cs + ds)[|cs + ds| - 1] == last;
      MergeApply(Fold(cs), Fold(init), last);
    }
  }

  lemma MergeApply(d: ParsedTcpData, e: ParsedTcpData, c: Option<Field>)
    ensures Apply(Merge(d, e), c) == Merge(d, Apply(e, c))
  {
  }

  lemma ClassifiedAppend(p: seq<string>, q: seq<string>, parse: Parser)
    ensures Classified(p + q, parse) == Classified(p, parse) + Classified(q, parse)
  {
    var whole := Classified(p + q, parse);
    var parts := Classified(p, parse) + Classified(q, parse);
    forall k | 0 <= k < |whole|
      ensures whole[k] == parts[k]
    {
      if k < |p| {
        assert (p + q)[k] == p[k];
      } else {
        assert (p + q)[k] == q[k - |p|];
      }
    }
  }

  /** Segments are read left to right: a message made of two messages joined by ','
      gives the first one's fields, overridden by every field the second one supplies. */
  lemma LaterSegmentsOverride(a: string, b: string, parse: Parser)
    ensures ExtractData(a + [','] + b, parse) == Merge(ExtractData(a, parse), ExtractData(b, parse))
  {
    SplitAround(a, b, ',');
    ClassifiedAppend(Split(a, ','), Split(b, ','), parse);
    FoldAppend(Classified(Split(a, ','), parse), Classified(Split(b, ','), parse));
  }

  /** A segment that is malformed, has an unknown key or an unparsable value can be
      appended without changing the result. */
  lemma IgnoredSegmentChangesNothing(a: string, junk: string, parse: Parser)
    requires ',' !in junk
    requires Classify(junk, parse).None?
    ensures ExtractData(a + [','] + junk, parse) == ExtractData(a, parse)
  {
    LaterSegmentsOverride(a, junk, parse);
    IgnoredSegmentAlone(junk, parse);
  }

  lemma IgnoredSegmentAlone(junk: string, parse: Parser)
    requires ',' !in junk
    requires Classify(junk, parse).None?
    ensures ExtractData(junk, parse) == Nothing
  {
    SingleSegment(junk);
    assert Classified([junk], parse) == [None];
    assert Fold([None]) == Apply(Fold([]), None);
  }

  lemma SingleSegment(junk: string)
    requires ',' !in junk
    ensures Split(junk, ',') == [junk]
  {
    SplitJoin([junk], ',');
  }
}
