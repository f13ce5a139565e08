/** The pure part of `compress_image` and `upload_image_to_s3`
    (main.py:151-169, 85-93): how a decoded image is re-encoded, under which
    key it is stored, with which content type, and the URL it is served at. */
module Compression {
  import opened Text
  import opened Ids

  /** The arguments of the `image.save` call. */
  datatype SaveOptions =
    | Jpeg(quality: int)        // format='JPEG', quality=IMAGE_QUALITY
    | Png(compressLevel: int)   // format='PNG', compress_level=IMAGE_QUALITY // 10
    | SameFormat(format: string) // format=image.format, no tuning

  function SavedFormat(o: SaveOptions): string {
    match o
    case Jpeg(_) => "JPEG"
    case Png(_) => "PNG"
    case SameFormat(f) => f
  }

  /** `quality // 10` (floor division, also for a negative quality). */
  function PngCompressLevel(quality: int): (level: int)
    ensures 10 * level <= quality < 10 * level + 10
  {
    quality / 10
  }

  /** The encoder choice for a decoded image of format `format`: the image is
      written back in its own format (a `JPG` label is written as `JPEG`), only
      JPEG gets the quality setting and only PNG a compression level. */
  function SaveOptionsFor(format: string, quality: int): (o: SaveOptions)
    ensures SavedFormat(o) == (if format == "JPG" then "JPEG" else format)
    ensures o.Jpeg? <==> format == "JPEG" || format == "JPG"
    ensures o.Jpeg? ==> o.quality == quality
    ensures o.Png? <==> format == "PNG"
    ensures o.Png? ==> 10 * o.compressLevel <= quality < 10 * o.compressLevel + 10
  {
    if format == "JPEG" || format == "JPG" then Jpeg(quality)
    else if format == "PNG" then Png(PngCompressLevel(quality))
    else SameFormat(format)
  }

  /** A quality on the 0-99 scale maps onto PNG's 0-9 compression levels;
      quality 50 gives level 5, and quality 100 gives 10, past the top of that
      scale. */
  lemma PngLevelScale(quality: int)
    ensures 0 <= quality <= 99 ==> 0 <= PngCompressLevel(quality) <= 9
    ensures PngCompressLevel(50) == 5 && PngCompressLevel(100) == 10
  {
  }

  /** `image.format.lower()`, the extension of the stored image. */
  function Extension(format: string): string {
    Lower(format)
  }

  /** The S3 key of a stored image: a compact UUID, a dot, the extension. */
  function ImageKey(id: string, format: string): (key: string)
    requires IsHexId(id)
    ensures IsImageKey(key) && ImageKeyId(key) == id && key[33..] == Extension(format)
  {
    var key := id + "." + Extension(format);
    assert key[..32] == id;
    key
  }

  /** The Content-Type stored with an image. */
  function ContentType(format: string): string {
    "image/" + Extension(format)
  }

  /** The Content-Type of a stored image names the same extension as its
      key. */
  lemma ContentTypeMatchesKey(id: string, format: string)
    requires IsHexId(id)
    ensures ContentType(format)[6..] == ImageKey(id, format)[33..]
  {
    assert ContentType(format)[6..] == Extension(format);
  }

  /** 32 hex characters, a dot, and an extension without upper-case letters. */
  predicate IsImageKey(key: string) {
    && |key| >= 33
    && IsHexId(key[..32])
    && key[32] == '.'
    && forall i :: 33 <= i < |key| ==> !('A' <= key[i] <= 'Z')
  }

  function ImageKeyId(key: string): string
    requires |key| >= 32
  {
    key[..32]
  }

  /** Images with different ids never share a key. */
  lemma ImageKeysDistinct(id1: string, format1: string, id2: string, format2: string)
    requires IsHexId(id1) && IsHexId(id2) && id1 != id2
    ensures ImageKey(id1, format1) != ImageKey(id2, format2)
  {
    assert ImageKeyId(ImageKey(id1, format1)) != ImageKeyId(ImageKey(id2, format2));
  }

  /** The public URL template of the image bucket. */
  function PublicUrlPrefix(bucket: string, region: string): string {
    "https://" + bucket + ".s3." + region + ".amazonaws.com/"
  }

  function PublicUrl(bucket: string, region: string, key: string): (url: string)
    ensures |url| == |PublicUrlPrefix(bucket, region)| + |key|
    ensures url[..|PublicUrlPrefix(bucket, region)|] == PublicUrlPrefix(bucket, region)
    ensures url[|PublicUrlPrefix(bucket, region)|..] == key
  {
    PublicUrlPrefix(bucket, region) + key
  }

  /** Different keys give different public URLs: the key is what follows the
      bucket's prefix. */
  lemma PublicUrlsDistinct(bucket: string, region: string, key1: string, key2: string)
    requires key1 != key2
    ensures PublicUrl(bucket, region, key1) != PublicUrl(bucket, region, key2)
  {
    var n := |PublicUrlPrefix(bucket, region)|;
    assert PublicUrl(bucket, region, key1)[n..] == key1;
    assert PublicUrl(bucket, region, key2)[n..] == key2;
  }
}
