/**
 The campaign contract shared by the sequential and the named-voice activation (`campaign_policy` and
 `validate_campaign` of activate_sequential_review.py). SHA-256 and UUIDv5 are free injective functions
 of what they digest.
 */
module ReviewCampaign {

  datatype Digest = Sha256(ids: set<string>)
  datatype Focus = Focus(count: nat, digest: Digest)
  datatype CampaignId = Uuid(baseline: nat, activation: nat, focus: Focus)
  datatype Campaign = Campaign(id: CampaignId, baseline: nat, activation: nat, focus: Focus)

  function FocusEvidence(ids: set<string>): Focus { Focus(|ids|, Sha256(ids)) }

  function CampaignPolicy(baseline: nat, activation: nat, focus: Focus): Campaign {
    Campaign(Uuid(baseline, activation, focus), baseline, activation, focus)
  }

  predicate ValidCampaign(c: Campaign) { c.baseline <= c.activation && c.focus.count > 0 }

  /** The campaign for a baseline: its activation is the last event and its focus the whole focus set. */
  ghost predicate CampaignOf(c: Campaign, baseline: nat, maximum: nat, focus: set<string>) {
    && c.baseline == baseline && c.activation == maximum
    && c.focus.count == |focus| && c.focus.digest == Sha256(focus)
    && c.id == Uuid(baseline, maximum, c.focus)
  }

  lemma CampaignIs(c: Campaign, baseline: nat, maximum: nat, focus: set<string>)
    ensures CampaignOf(c, baseline, maximum, focus) <==> c == CampaignPolicy(baseline, maximum, FocusEvidence(focus))
    ensures ValidCampaign(CampaignPolicy(baseline, maximum, FocusEvidence(focus)))
       <==> baseline <= maximum && focus != {}
  {
    assert |focus| == 0 <==> focus == {};
  }
}
