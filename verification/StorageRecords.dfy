/** What a stored record is, as bytes: the three cases of the flash journal. */
module StorageRecords {
  import opened Bits
  import opened InputProfiles
  import opened StorageImage
  import opened StorageCodec
  import opened StorageRoundTrip
  import opened StorageCorruption
  import Journal

  predicate AllOnes(image: seq<Byte>) {
    forall i :: 0 <= i < |image| ==> image[i] == 0xff
  }

  method ImageIsErased(image: seq<Byte>) returns (erased: bool)
    ensures erased <==> AllOnes(image)
  {
    var i := 0;
    while i < |image|
      invariant 0 <= i <= |image|
      invariant forall j :: 0 <= j < i ==> image[j] == 0xff
    {
      if image[i] != 0xff {
        return false;
      }
      i := i + 1;
    }
    return true;
  }

  function RecordOf(image: seq<Byte>): Journal.Record {
    if AllOnes(image) then Journal.Erased
    else
      var r := DecodeImage(image);
      if r.Success? then Journal.Valid(r.value) else Journal.Bad
  }

  lemma MagicIsNotErased(image: seq<Byte>, i: nat)
    requires |image| >= IMAGE_LEN && image[..4] == MAGIC && i < 4
    ensures image[i] != 0xff
  {
    assert image[i] == image[..4][i];
  }

  /** A record is valid exactly when it decodes. */
  lemma ValidMeansDecodable(image: seq<Byte>)
    ensures RecordOf(image).Valid? <==> DecodeImage(image).Success?
  {
    if DecodeImage(image).Success? {
      AcceptedHeader(image);
      MagicIsNotErased(image, 0);
    }
  }

  /** The image of a storable state is a valid record that holds its durable
      part; an image of a state with settings out of range is a bad one. */
  lemma EncodedRecord(s: StorageState)
    requires Encodable(s)
    ensures RecordOf(Image(s)) == if InRange(s) then Journal.Valid(Durable(s)) else Journal.Bad
  {
    DecodeOfEncode(s);
    ImageIsLaid(s);
    HeaderSlices(Image(s), s);
    MagicIsNotErased(Image(s), 0);
  }

  /** One changed byte among the declared ones turns a valid record bad. */
  lemma DamagedRecordIsBad(image: seq<Byte>, i: nat, b: Byte)
    requires RecordOf(image).Valid? && |image| >= IMAGE_LEN && i < TotalLen(image) && i < |image| && b != image[i]
    ensures RecordOf(image[i := b]) == Journal.Bad
  {
    SingleByteRejected(image, i, b);
    AcceptedHeader(image);
    MagicIsNotErased(image, 0);
    MagicIsNotErased(image, 1);
    var changed := image[i := b];
    assert changed[0] != 0xff || changed[1] != 0xff;
  }
}
