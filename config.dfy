/**
 * The configuration checks of New: the node selector must parse, use no match
 * expressions and hold at least one label; tolerations that do not parse are
 * dropped silently. The parsers themselves are foreign, so their results are
 * passed in.
 */
module SyncerConfig {
  import opened Wrappers
  import opened PodTypes

  /** A parsed label selector: its match labels and how many match expressions it has. */
  datatype LabelSelector = LabelSelector(matchLabels: map<string, string>, matchExpressionCount: nat)

  /** Lines 52-63: the node-selector policy, or the error New fails with. */
  function NodeSelectorPolicy(enforce: bool, raw: string, parsed: Result<LabelSelector, Error>)
    : (r: Result<Option<map<string, string>>, Error>)
    ensures r.Success? && r.value.Some? ==> enforce && raw != "" && |r.value.value| > 0
    ensures r.Success? && r.value.Some? ==> parsed.Success? && r.value.value == parsed.value.matchLabels
    ensures !(enforce && raw != "") ==> r == Success(None)
    ensures enforce && raw != "" && parsed.Success? && parsed.value.matchExpressionCount > 0 ==> r.Failure?
    ensures enforce && raw != "" ==>
      (r.Success? <==> parsed.Success? && parsed.value.matchExpressionCount == 0 && |parsed.value.matchLabels| > 0)
    ensures enforce && raw != "" && r.Success? ==> r.value.Some?
  {
    if enforce && raw != "" then
      match parsed
      case Failure(e) => Failure(e)
      case Success(selector) =>
        if selector.matchExpressionCount > 0 then
          Failure(Failed("match expressions in the node selector are not supported"))
        else if |selector.matchLabels| == 0 then
          Failure(Failed("at least one label=value pair has to be defined in the label selector"))
        else
          Success(Some(selector.matchLabels))
    else
      Success(None)
  }

  /** The tolerations kept from the parse results, in order. */
  function Kept(parsed: seq<Result<Toleration, Error>>): seq<Toleration> {
    if parsed == [] then []
    else
      var last := parsed[|parsed| - 1];
      Kept(parsed[..|parsed| - 1]) + (if last.Success? then [last.value] else [])
  }

  /** Lines 65-74: collect the tolerations that parsed. */
  method ParseTolerations(parsed: seq<Result<Toleration, Error>>) returns (tolerations: seq<Toleration>)
    ensures tolerations == Kept(parsed)
  {
    tolerations := [];
    for i := 0 to |parsed|
      invariant tolerations == Kept(parsed[..i])
    {
      assert parsed[..i + 1][..i] == parsed[..i];
      if parsed[i].Success? {
        tolerations := tolerations + [parsed[i].value];
      }
    }
    assert parsed[..|parsed|] == parsed;
  }

  /** Exactly the tolerations that parsed are kept: a failed parse is dropped, not an error. */
  lemma {:induction false} KeptExactly(parsed: seq<Result<Toleration, Error>>)
    ensures |Kept(parsed)| <= |parsed|
    ensures forall t :: t in Kept(parsed) <==> Success(t) in parsed
  {
    if parsed != [] {
      var init := parsed[..|parsed| - 1];
      assert parsed == init + [parsed[|parsed| - 1]];
      KeptExactly(init);
    }
  }
}
