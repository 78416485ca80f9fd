/** The two clipboard families share one envelope; neither decoder takes the other's messages. */
module ClipboardFamilies {
  import opened ProtobufWire
  import opened ClipboardWire
  import V3 = ClipboardV3
  import V4 = ClipboardV4

  lemma V4RejectsV3(metadata: Metadata, formatId: int, text: seq<byte>)
    ensures var r := V3.Encode(metadata, formatId, text);
            r.Success? ==> V4.Decode(r.value).None?
  {
    hide ItemsBytes, DecodeEnvelope, DecodeRequestId;
    var r := V3.Encode(metadata, formatId, text);
    if r.Success? {
      var body := ItemsBytes(V3.BodyItems(formatId, text));
      EnvelopeRoundTrip(metadata, RPC_REQUEST_TAG, V3.TEXT_CHANGE_REQUEST_TAG, body);
      RpcSelection(metadata.requestId, V3.TEXT_CHANGE_REQUEST_TAG, body);
    }
  }

  lemma V3RejectsMessage(metadata: Metadata, request: bool, bodyTag: nat, body: seq<Item>)
    ensures var r := V4.EncodeMessage(metadata, request, bodyTag, body);
            r.Success? ==> V3.Decode(r.value).None?
  {
    hide ItemsBytes, DecodeEnvelope, DecodeRequestId;
    var r := V4.EncodeMessage(metadata, request, bodyTag, body);
    if r.Success? {
      var rpcTag := if request then RPC_REQUEST_TAG else RPC_RESPONSE_TAG;
      var clipTag := if request then V4.CLIP_REQUEST_TAG else V4.CLIP_RESPONSE_TAG;
      var clip := ItemsBytes([BytesItem(bodyTag, ItemsBytes(body))]);
      EnvelopeRoundTrip(metadata, rpcTag, clipTag, clip);
      RpcSelection(metadata.requestId, clipTag, clip);
    }
  }

  /** Neither the ask nor the confirm of version 4 is a version 3 message. */
  lemma V3RejectsV4(metadata: Metadata, blockKey: seq<byte>, formatId: int, formatName: seq<byte>,
                    blockId: int, result: int)
    ensures var ask := V4.EncodeFormatDataAsk(metadata, blockKey, formatId, formatName);
            ask.Success? ==> V3.Decode(ask.value).None?
    ensures var confirm := V4.EncodeDataBlockConfirm(metadata, blockKey, blockId, result);
            confirm.Success? ==> V3.Decode(confirm.value).None?
  {
    hide V3.Decode, V4.EncodeMessage;
    if formatId >= 0 {
      V3RejectsMessage(metadata, true, V4.FORMAT_DATA_ASK_TAG, V4.FormatDataAskItems(blockKey, formatId, formatName));
    }
    if blockId > 0 && result >= 0 {
      V3RejectsMessage(metadata, false, V4.DATA_BLOCK_CONFIRM_TAG, V4.DataBlockConfirmItems(blockKey, blockId, result));
    }
  }
}
