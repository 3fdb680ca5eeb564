/**
 * The profile-update rules `checkUsernameAnImage`: the registration username
 * chain, then one custom rule on the base64 `image` field. Base64 decoding and
 * content-type sniffing are library calls and are inputs here.
 */
module FileService {
  import opened Wrappers
  import opened Generator
  import opened Chains
  import opened Validation

  /** The lenient base64 decoder. */
  type Decoder = string -> seq<Byte>

  /** Content-type detection: the MIME type recognised in the bytes, if any. */
  type Sniffer = seq<Byte> -> Option<string>

  const MAX_IMAGE_BYTES: nat := 2 * 1024 * 1024
  const IMAGE_TOO_BIG: string := "Your profile image cannot be bigger than 2MB"
  const IMAGE_WRONG_TYPE: string := "Only JPEG or PNG files allowed"

  predicate AllowedMime(t: Option<string>) {
    t == Some("image/png") || t == Some("image/jpeg")
  }

  /** What the image rule throws for a value, `None` when it returns true. */
  function ImageRule(decode: Decoder, sniff: Sniffer, v: Value): (r: Option<string>)
    ensures r.Some? ==> v.Some? && v.value != "" && (r.value == IMAGE_TOO_BIG || r.value == IMAGE_WRONG_TYPE)
  {
    if v.None? || v.value == "" then None
    else
      var buffer := decode(v.value);
      if |buffer| > MAX_IMAGE_BYTES then Some(IMAGE_TOO_BIG)
      else if !AllowedMime(sniff(buffer)) then Some(IMAGE_WRONG_TYPE)
      else None
  }

  function ImageChain(decode: Decoder, sniff: Sniffer): (c: Chain)
    ensures c.field == "image"
  {
    Chain("image", [Check(Custom((v: Value) => ImageRule(decode, sniff, v)), None)])
  }

  function CheckUsernameAndImage(decode: Decoder, sniff: Sniffer): (cs: seq<Chain>)
    ensures |cs| == 2 && cs[0].field == "username" && cs[1].field == "image"
  {
    [UsernameChain(), ImageChain(decode, sniff)]
  }

  function Image(body: Body): Value {
    FieldValue(body, "image")
  }

  /**
   * The image verdict: absent or empty passes; otherwise an image larger than
   * 2 MiB reports the size message, and one within the limit passes exactly
   * when it is detected as PNG or JPEG.
   */
  lemma ImageVerdict(body: Body, decode: Decoder, sniff: Sniffer, isEmail: EmailShape)
    ensures RunChain(ImageChain(decode, sniff), body, isEmail) ==
      if Image(body).None? || Image(body).value == "" then []
      else if |decode(Image(body).value)| > 2097152 then [FieldError("image", IMAGE_TOO_BIG)]
      else if sniff(decode(Image(body).value)) in {Some("image/png"), Some("image/jpeg")} then []
      else [FieldError("image", IMAGE_WRONG_TYPE)]
  {
  }

  /** An image of exactly 2 MiB is not rejected for its size. */
  lemma ExactlyTwoMiBPassesSizeCheck(body: Body, decode: Decoder, sniff: Sniffer, isEmail: EmailShape)
    requires Image(body).Some? && |decode(Image(body).value)| == 2 * 1024 * 1024
    ensures RunChain(ImageChain(decode, sniff), body, isEmail) != [FieldError("image", IMAGE_TOO_BIG)]
  {
  }

  /** The size check comes first: an oversized image reports its size whatever its content. */
  lemma OversizedImageIgnoresType(body: Body, decode: Decoder, sniff1: Sniffer, sniff2: Sniffer,
                                  isEmail: EmailShape)
    requires Image(body).Some? && Image(body).value != ""
    requires |decode(Image(body).value)| > MAX_IMAGE_BYTES
    ensures RunChain(ImageChain(decode, sniff1), body, isEmail) ==
            RunChain(ImageChain(decode, sniff2), body, isEmail) ==
            [FieldError("image", IMAGE_TOO_BIG)]
  {
  }

  /**
   * `checkUsernameAnImage` reports the registration username verdict followed
   * by the image verdict.
   */
  lemma CheckUsernameAndImageErrors(body: Body, decode: Decoder, sniff: Sniffer, isEmail: EmailShape)
    ensures ValidationResult(CheckUsernameAndImage(decode, sniff), body, isEmail) ==
      (if |Username(body)| == 0 then [FieldError("username", USERNAME_NULL)]
       else if 4 <= |Username(body)| <= 32 then []
       else [FieldError("username", USERNAME_SIZE)])
      + RunChain(ImageChain(decode, sniff), body, isEmail)
  {
    ValidationResultOfTwo(UsernameChain(), ImageChain(decode, sniff), body, isEmail);
    UsernameVerdict(body, isEmail);
  }
}
