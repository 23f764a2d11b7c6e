/** Label derivation: every logical measurement id gets a start-mark, an
    end-mark and a measurement label, built as `<id>_<suffix>`. */
module Labels {

  /** `makeLabel(id, suffix)`: the id, an underscore, the suffix. */
  function MakeLabel(id: string, suffix: string): string {
    id + "_" + suffix
  }

  /** A label reads as the id, then '_', then the suffix. */
  lemma MakeLabelParts(id: string, suffix: string)
    ensures var l := MakeLabel(id, suffix);
      |l| == |id| + 1 + |suffix| && l[..|id|] == id && l[|id|] == '_' && l[|id| + 1..] == suffix
  {
  }

  /** The three fixed suffixes the instrumentation uses. */
  datatype LabelKind = Start | End | Measurement

  function Suffix(kind: LabelKind): string {
    match kind
    case Start => "start"
    case End => "end"
    case Measurement => "measurement"
  }

  function KindLabel(id: string, kind: LabelKind): string {
    MakeLabel(id, Suffix(kind))
  }

  function StartMarkLabel(id: string): (r: string)
    ensures r == KindLabel(id, Start)
  {
    MakeLabel(id, "start")
  }

  function EndMarkLabel(id: string): (r: string)
    ensures r == KindLabel(id, End)
  {
    MakeLabel(id, "end")
  }

  function MeasurementLabel(id: string): (r: string)
    ensures r == KindLabel(id, Measurement)
  {
    MakeLabel(id, "measurement")
  }

  /** With a fixed suffix the id can be read back off the label. */
  lemma MakeLabelInjective(id1: string, id2: string, suffix: string)
    ensures MakeLabel(id1, suffix) == MakeLabel(id2, suffix) <==> id1 == id2
  {
    if MakeLabel(id1, suffix) == MakeLabel(id2, suffix) {
      var l := MakeLabel(id1, suffix);
      assert |id1| == |id2|;
      assert id1 == l[..|id1|] == id2;
    }
  }

  /** The last two characters of each suffix: "rt", "nd" and "nt" are pairwise distinct. */
  lemma LabelEnding(id: string, kind: LabelKind)
    ensures var l := KindLabel(id, kind);
      |l| >= 4 &&
      l[|l| - 2..] == match kind
        case Start => "rt"
        case End => "nd"
        case Measurement => "nt"
  {
    var l := KindLabel(id, kind);
    var s := Suffix(kind);
    MakeLabelParts(id, s);
    assert l[|l| - 2..] == s[|s| - 2..];
    match kind
    case Start => assert s[|s| - 2..] == "rt";
    case End => assert s[|s| - 2..] == "nd";
    case Measurement => assert s[|s| - 2..] == "nt";
  }

  /** (id, kind) -> label is injective: labels of different ids, or of different
      kinds, never coincide. No id is excluded, because no suffix ends the way
      another one does. */
  lemma KindLabelInjective(id1: string, kind1: LabelKind, id2: string, kind2: LabelKind)
    ensures KindLabel(id1, kind1) == KindLabel(id2, kind2) <==> id1 == id2 && kind1 == kind2
  {
    if KindLabel(id1, kind1) == KindLabel(id2, kind2) {
      LabelEnding(id1, kind1);
      LabelEnding(id2, kind2);
      assert kind1 == kind2;
      MakeLabelInjective(id1, id2, Suffix(kind1));
    }
  }
}
