/** Display helpers: the full address of a stored profile image and the
    placeholder shown for a missing date. A JavaScript value that may be
    null, undefined or a string is an `Option<string>`; None is null or
    undefined. */
module Helpers {
  import opened Common

  const NoDate := "—"

  /** `getProfileImageUrl`: nothing for a missing or empty path, otherwise
      the server's base address followed by the stored path. */
  function GetProfileImageUrl(base: string, imagePath: Option<string>): (r: Option<string>)
    ensures r.None? <==> imagePath.None? || imagePath.value == ""
    ensures r.Some? ==> (|r.value| == |base| + |imagePath.value|
                         && r.value[..|base|] == base && r.value[|base|..] == imagePath.value)
  {
    if imagePath.None? || imagePath.value == "" then None else Some(base + imagePath.value)
  }

  /** `formatDate`: the placeholder for a missing or empty value; the
      locale formatting of a present one is given as `format`. */
  function FormatDate(dateStr: Option<string>, format: string -> string): (r: string)
    ensures (dateStr.None? || dateStr.value == "") ==> r == NoDate
    ensures (dateStr.Some? && dateStr.value != "") ==> r == format(dateStr.value)
  {
    if dateStr.None? || dateStr.value == "" then NoDate else format(dateStr.value)
  }

  /** Different stored paths give different addresses: the address
      determines the image. */
  lemma UrlDeterminesPath(base: string, a: string, b: string)
    requires GetProfileImageUrl(base, Some(a)) == GetProfileImageUrl(base, Some(b))
    requires a != "" || b != ""
    ensures a == b
  {
    var ra, rb := GetProfileImageUrl(base, Some(a)), GetProfileImageUrl(base, Some(b));
    assert ra.Some? && rb.Some?;
    assert a == ra.value[|base|..] == rb.value[|base|..] == b;
  }
}
