/**
 `check_body_for_warming`: a scan of a message's MIME parts for the tag. Only
 parts of type "text/plain" or "text/html" are decoded and searched. The
 base64url and UTF-8 decoding is a parameter, a total function from the
 part's encoded data to its text. The filter defines this check but never
 calls it.
 */
module Body {
  import opened Text

  /** One entry of a message's `parts`: its MIME type and its encoded `body.data`. */
  datatype Part = Part(mimeType: string, data: string)

  /** The MIME types whose parts are searched. */
  const TextMimeTypes: seq<string> := ["text/plain", "text/html"]

  /** Part `p` is a text part whose decoded data contains `tag`. */
  ghost predicate CarriesTag(p: Part, tag: string, decode: string -> string) {
    p.mimeType in TextMimeTypes && IsSubstring(tag, decode(p.data))
  }

  /**
   Scans the parts in order and stops at the first text part whose decoded
   data contains `tag`: true iff there is such a part.
   */
  method CheckBodyForWarming(parts: seq<Part>, tag: string, decode: string -> string) returns (found: bool)
    ensures found <==> exists k :: 0 <= k < |parts| && CarriesTag(parts[k], tag, decode)
  {
    for i := 0 to |parts|
      invariant forall k :: 0 <= k < i ==> !CarriesTag(parts[k], tag, decode)
    {
      var part := parts[i];
      if part.mimeType in TextMimeTypes {
        var text := decode(part.data);
        if Contains(text, tag) {
          return true;
        }
      }
    }
    return false;
  }

}
