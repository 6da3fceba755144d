/** Private mode (crates/c0mpute-core/src/private.rs): who a node works for. */
module Private {
  import opened Wrappers
  import opened Wire
  import opened Text

  datatype Policy = Policy(enabled: bool, trusted: set<Peer>) {

    /** A private node answers only offers that a trusted buyer, or the node itself, has signed. */
    predicate Admits(msg: Gossip, offer: JobOffer, us: Peer) {
      !enabled || (SourceMatchesClaim(msg, offer.buyer) && (offer.buyer == us || offer.buyer in trusted))
    }
  }

  function Trusted(buyers: seq<string>): set<Peer> {
    set b | b in buyers && Trim(b) != [] :: Trim(b)
  }

  /** The policy in force: the configured buyers, trimmed, plus this machine's identities. */
  function FromConfig(enabled: bool, buyers: seq<string>, local: set<Peer>): Policy {
    Policy(enabled, Trusted(buyers) + local)
  }

  function Without(buyers: seq<string>, p: string): seq<string> {
    if buyers == [] then []
    else if buyers[0] == p then Without(buyers[1..], p)
    else [buyers[0]] + Without(buyers[1..], p)
  }

  class PrivateConfig {
    var enabled: bool
    var buyers: seq<string>

    constructor (enabled: bool, buyers: seq<string>)
      ensures this.enabled == enabled && this.buyers == buyers
    {
      this.enabled := enabled;
      this.buyers := buyers;
    }

    /** Lists a buyer, trimmed, and says whether that was news. */
    method Allow(peer: string) returns (added: bool)
      modifies this`buyers
      ensures added <==> Trim(peer) !in old(buyers)
      ensures buyers == if added then old(buyers) + [Trim(peer)] else old(buyers)
    {
      var p := Trim(peer);
      if p in buyers {
        return false;
      }
      buyers := buyers + [p];
      return true;
    }

    /** Removes every listing of a buyer; false when there was none. */
    method Deny(peer: string) returns (removed: bool)
      modifies this`buyers
      ensures buyers == Without(old(buyers), Trim(peer))
      ensures removed <==> Trim(peer) in old(buyers)
    {
      var p, kept := Trim(peer), [];
      for i := 0 to |buyers|
        invariant buyers == old(buyers)
        invariant kept + Without(buyers[i..], p) == Without(buyers, p)
      {
        assert buyers[i..][1..] == buyers[i + 1..];
        if buyers[i] != p {
          kept := kept + [buyers[i]];
        }
      }
      WithoutLength(buyers, p);
      removed := |kept| != |buyers|;
      buyers := kept;
    }
  }

  lemma {:induction false} WithoutLength(buyers: seq<string>, p: string)
    ensures |Without(buyers, p)| <= |buyers|
    ensures |Without(buyers, p)| == |buyers| <==> p !in buyers
  {
    if buyers != [] { WithoutLength(buyers[1..], p); }
  }

  lemma {:induction false} WithoutKeepsOthers(buyers: seq<string>, p: string)
    ensures forall b :: b in Without(buyers, p) <==> b in buyers && b != p
  {
    if buyers != [] { WithoutKeepsOthers(buyers[1..], p); }
  }

  /** An allowed buyer is admitted on its own signed offers, and on nobody else's in its name. */
  lemma AllowedBuyerIsAdmitted(
    buyers: seq<string>, peer: string, local: set<Peer>, msg: Gossip, offer: JobOffer, us: Peer)
    requires Trim(peer) != [] && offer.buyer == Trim(peer) != us
    ensures FromConfig(true, buyers + [Trim(peer)], local).Admits(msg, offer, us) <==> msg.source == Some(offer.buyer)
  {
    TrimIsTrimmed(peer);
    TrimOfTrimmed(Trim(peer));
    assert Trim(peer) in buyers + [Trim(peer)];
  }

  /**
   * Whom a node works for: everyone unless it is private; then only those whose offers they signed themselves, and
   * of these the node itself, this machine's identities, and who is listed, white space around the entry aside.
   */
  lemma AdmitsExactlyWhen(
    enabled: bool, buyers: seq<string>, local: set<Peer>, msg: Gossip, offer: JobOffer, us: Peer)
    ensures FromConfig(enabled, buyers, local).Admits(msg, offer, us) <==>
              || !enabled
              || (&& msg.source == Some(offer.buyer)
                  && (|| offer.buyer == us
                      || offer.buyer in local
                      || (offer.buyer != "" && exists b :: b in buyers && Trim(b) == offer.buyer)))
  {
  }

  /**
   * After `Deny(peer)` the peer is still trusted exactly when it is one of this machine's identities
   * or is also listed in a spelling with stray white space: `Deny` compares the raw entries,
   * `FromConfig` the trimmed ones.
   */
  lemma DeniedBuyerStillTrustedExactlyWhen(enabled: bool, buyers: seq<string>, peer: string, local: set<Peer>)
    requires Trim(peer) != []
    ensures Trim(peer) in FromConfig(enabled, Without(buyers, Trim(peer)), local).trusted <==>
              Trim(peer) in local || exists b :: b in buyers && b != Trim(b) && Trim(b) == Trim(peer)
  {
    WithoutKeepsOthers(buyers, Trim(peer));
    TrimIsTrimmed(peer);
    TrimOfTrimmed(Trim(peer));
    if b :| b in Without(buyers, Trim(peer)) && Trim(b) == Trim(peer) {
      assert b in buyers && b != Trim(b);
    }
  }

  /** A list with one entry that starts with a space: denying that buyer changes nothing, and it stays trusted. */
  lemma DenyMissesAPaddedEntry()
    ensures var listed := [" 12D3KooWb"];
            && Without(listed, Trim("12D3KooWb")) == listed
            && "12D3KooWb" in FromConfig(true, Without(listed, Trim("12D3KooWb")), {}).trusted
  {
    var peer, padded := "12D3KooWb", " 12D3KooWb";
    assert Trimmed(peer);
    TrimOfTrimmed(peer);
    TrimOfPadded(" ", peer, "");
    assert " " + peer + "" == padded;
    assert Without([padded][1..], peer) == [] && [padded] + [] == [padded];
    DeniedBuyerStillTrustedExactlyWhen(true, [padded], peer, {});
    assert padded in [padded] && padded != Trim(padded) && Trim(padded) == Trim(peer);
  }

  /** Denying undoes allowing a new buyer. */
  lemma {:induction false} DenyUndoesAllow(buyers: seq<string>, p: string)
    requires p !in buyers
    ensures Without(buyers + [p], p) == buyers
  {
    if buyers != [] {
      DenyUndoesAllow(buyers[1..], p);
      assert (buyers + [p])[1..] == buyers[1..] + [p];
    }
  }
}
