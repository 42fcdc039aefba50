/**
 * The per-sharer decoder registry of conference rooms
 * (client/src/composables/useConferenceWebCodecs.ts): one decoder per
 * sharer id, its last applied config, and the set of active ids, kept in
 * step; each decoder gates config and video frames as the single decoder does.
 */
module ConferenceCodecs {
  import opened Types
  import opened WebCodecs

  type SharerId = string

  /** A VideoDecoder reduced to its `configured` state and the chunks it was given. */
  datatype DecoderDevice = DecoderDevice(configured: bool, decoded: seq<DecodeCall>)

  class ConferenceDecoders {
    var decoders: map<SharerId, DecoderDevice>
    var decoderConfigs: map<SharerId, DecoderConfig>
    var activeDecoders: set<SharerId>
    /** The sharers whose decoder was closed, in closing order. */
    var closedDecoders: seq<SharerId>

    /** The three tables are kept in step: the active set is the decoder key set, and configs exist only for decoders. */
    ghost predicate Valid()
      reads this
    {
      && decoders.Keys == activeDecoders
      && decoderConfigs.Keys <= activeDecoders
    }

    /** One sharer's decoder as the single-decoder model sees it. */
    function SharerState(id: SharerId): DecoderState
      requires id in decoders
      reads this
    {
      DecoderState(if id in decoderConfigs then Some(decoderConfigs[id]) else None,
                   decoders[id].configured, decoders[id].decoded)
    }

    constructor()
      ensures Valid()
      ensures decoders == map[] && decoderConfigs == map[] && activeDecoders == {} && closedDecoders == []
    {
      decoders := map[];
      decoderConfigs := map[];
      activeDecoders := {};
      closedDecoders := [];
    }

    /** `hasDecoder`: whether the sharer has a decoder, which is whether it is active. */
    predicate HasDecoder(id: SharerId): (r: bool)
      reads this
      ensures r <==> id in decoders
      ensures Valid() ==> (r <==> id in activeDecoders)
    {
      id in decoders
    }

    /** `stopDecoderForSharer`: the id leaves all three tables; an unknown id changes nothing; other ids are untouched. */
    method StopDecoderForSharer(id: SharerId)
      requires Valid()
      modifies this
      ensures Valid()
      ensures id in old(decoders) ==>
        && decoders == old(decoders) - {id}
        && decoderConfigs == old(decoderConfigs) - {id}
        && activeDecoders == old(activeDecoders) - {id}
        && closedDecoders == old(closedDecoders) + [id]
      ensures id !in old(decoders) ==>
        && decoders == old(decoders) && decoderConfigs == old(decoderConfigs)
        && activeDecoders == old(activeDecoders) && closedDecoders == old(closedDecoders)
    {
      if id in decoders {
        closedDecoders := closedDecoders + [id];
        decoders := decoders - {id};
        decoderConfigs := decoderConfigs - {id};
        activeDecoders := activeDecoders - {id};
      }
    }

    /**
     * `initDecoderForSharer`: any decoder the id had is closed first, then a
     * fresh unconfigured decoder is registered; other ids are untouched.
     */
    method InitDecoderForSharer(id: SharerId)
      requires Valid()
      modifies this
      ensures Valid()
      ensures HasDecoder(id) && id in activeDecoders
      ensures decoders == old(decoders)[id := DecoderDevice(false, [])]
      ensures decoderConfigs == old(decoderConfigs) - {id}
      ensures activeDecoders == old(activeDecoders) + {id}
      ensures closedDecoders == old(closedDecoders) + (if id in old(decoders) then [id] else [])
    {
      StopDecoderForSharer(id);
      decoders := decoders[id := DecoderDevice(false, [])];
      activeDecoders := activeDecoders + {id};
    }

    /**
     * `decodeFrameForSharer`: ignored for an id without a decoder; otherwise
     * that id's decoder follows the single decoder's `DecodeStep`, and no
     * other id changes.
     */
    method DecodeFrameForSharer(id: SharerId, f: EncodedFrame)
      requires Valid()
      modifies this
      ensures Valid()
      ensures id !in old(decoders) ==> decoders == old(decoders) && decoderConfigs == old(decoderConfigs)
      ensures id in old(decoders) ==> id in decoders && SharerState(id) == DecodeStep(old(SharerState(id)), f)
      ensures decoders.Keys == old(decoders).Keys
      ensures forall other :: other != id && other in old(decoders) ==> decoders[other] == old(decoders)[other]
      ensures forall other :: other != id ==>
        (other in decoderConfigs <==> other in old(decoderConfigs))
        && (other in decoderConfigs ==> decoderConfigs[other] == old(decoderConfigs)[other])
      ensures activeDecoders == old(activeDecoders) && closedDecoders == old(closedDecoders)
    {
      if id !in decoders {
        return;
      }
      var decoder := decoders[id];
      if f.frameType == Config {
        if f.codec.None? || |f.codec.value| == 0 || f.width.None? || f.width.value == 0
           || f.height.None? || f.height.value == 0 {
          return;
        }
        var config := DecoderConfig(f.codec.value, f.width.value, f.height.value,
                                    if |f.data| > 0 then Some(f.data) else None);
        decoderConfigs := decoderConfigs[id := config];
        decoders := decoders[id := decoder.(configured := true)];
        return;
      }
      if f.frameType == Video && decoder.configured {
        var call := DecodeCall(f.isKeyFrame == Some(true), f.timestamp, f.duration, f.data);
        decoders := decoders[id := decoder.(decoded := decoder.decoded + [call])];
      }
    }

    /** `stopAllDecoders`: every registered decoder is closed, once each, and all three tables end empty. */
    method StopAllDecoders()
      requires Valid()
      modifies this
      ensures Valid()
      ensures decoders == map[] && decoderConfigs == map[] && activeDecoders == {}
      ensures |closedDecoders| == |old(closedDecoders)| + |old(decoders).Keys|
      ensures closedDecoders[..|old(closedDecoders)|] == old(closedDecoders)
      ensures forall id :: id in closedDecoders[|old(closedDecoders)|..] <==> id in old(decoders)
    {
      var sharerIds := decoders.Keys;
      ghost var n0 := |closedDecoders|;
      while sharerIds != {}
        invariant Valid()
        invariant decoders.Keys == sharerIds && sharerIds <= old(decoders).Keys
        invariant n0 <= |closedDecoders|
        invariant closedDecoders[..n0] == old(closedDecoders)
        invariant |closedDecoders| - n0 + |sharerIds| == |old(decoders).Keys|
        invariant forall x :: x in closedDecoders[n0..] <==> x in old(decoders) && x !in sharerIds
        decreases |sharerIds|
      {
        var id :| id in sharerIds;
        ghost var before := closedDecoders;
        StopDecoderForSharer(id);
        assert closedDecoders[n0..] == before[n0..] + [id];
        sharerIds := sharerIds - {id};
      }
    }
  }
}
