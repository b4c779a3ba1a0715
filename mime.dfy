/** The content type the image endpoints send with a file, chosen by its extension. The
    same four-way switch appears in both API generations. */
module Mime {
  import opened Text
  import opened Paths

  const Jpeg := "image/jpeg"
  const Png := "image/png"
  const Gif := "image/gif"
  const OctetStream := "application/octet-stream"

  /** The switch over an extension that is already lower-cased. */
  function MimeTypeOf(extension: string): string {
    if extension == ".jpeg" || extension == ".jpg" then Jpeg
    else if extension == ".png" then Png
    else if extension == ".gif" then Gif
    else OctetStream
  }

  /** Path.GetExtension(path).ToLowerInvariant(), then the switch. */
  function MimeTypeOfPath(path: string): (r: string)
    ensures r in {Jpeg, Png, Gif, OctetStream}
  {
    MimeTypeOf(ToLower(GetExtension(path)))
  }

  /** Each content type is chosen for exactly its extensions, compared without case, and
      every other extension gets application/octet-stream. */
  lemma MimeTypeCases(path: string)
    ensures var ext := GetExtension(path);
            && (MimeTypeOfPath(path) == Jpeg <==> EqualsIgnoreCase(ext, ".jpg") || EqualsIgnoreCase(ext, ".jpeg"))
            && (MimeTypeOfPath(path) == Png <==> EqualsIgnoreCase(ext, ".png"))
            && (MimeTypeOfPath(path) == Gif <==> EqualsIgnoreCase(ext, ".gif"))
            && (MimeTypeOfPath(path) == OctetStream <==>
                  !(EqualsIgnoreCase(ext, ".jpg") || EqualsIgnoreCase(ext, ".jpeg")
                    || EqualsIgnoreCase(ext, ".png") || EqualsIgnoreCase(ext, ".gif")))
  {
    LowerCaseLiteral(".jpg");
    LowerCaseLiteral(".jpeg");
    LowerCaseLiteral(".png");
    LowerCaseLiteral(".gif");
  }
}
