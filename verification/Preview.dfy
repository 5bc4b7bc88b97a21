/** The field derivation of `fetchPreview` in script.js: turning the metadata endpoint's JSON
    into a preview record. The HTTP request itself is a parameter (`ProviderResponse`). */
module Preview {
  import opened Wrappers

  /** Resolution status of a link: `'ok'`, `'pending'` or `'error'`. */
  datatype Status = Ok | Pending | Error

  /** The `meta` record of script.js (also the instant-preview `currentPreview`). */
  datatype Preview = Preview(url: string, title: string, description: string, image: string, status: Status)

  /** The fields of the endpoint's JSON body that are read. An absent or falsy string field is
      `""`; an `images` field that is not an array is `[]`. */
  datatype ProviderData = ProviderData(
    title: string, description: string, images: seq<string>, image: string, icon: string, url: string)

  /** What `fetch(endpoint)` followed by `res.json()` yields: `Failed` for a rejected request, a
      response whose `ok` is false, or a body that is not JSON. */
  datatype ProviderResponse = Failed | Json(data: ProviderData)

  /** `xs[0] || xs[1] || ... || ''`: the first non-empty string. */
  function FirstTruthy(xs: seq<string>): (r: string)
    ensures r == "" <==> forall i | 0 <= i < |xs| :: xs[i] == ""
    ensures forall i | 0 <= i < |xs| && xs[i] != "" && (forall j | 0 <= j < i :: xs[j] == "") :: r == xs[i]
  {
    if xs == [] then "" else if xs[0] != "" then xs[0] else FirstTruthy(xs[1..])
  }

  /** The image sources in the order they are tried: `images[0]`, `image`, `icon`. */
  function ImageCandidates(d: ProviderData): seq<string> {
    (if |d.images| > 0 then [d.images[0]] else []) + [d.image, d.icon]
  }

  /** The page whose host names the preview when the body has no title: the body's own `url`
      when it has one, else the requested URL. */
  function TitleSource(url: string, d: ProviderData): string {
    if d.url != "" then d.url else url
  }

  /** `fetchPreview(url)`: `None` when it throws, either because the request failed or because
      `new URL(...)` rejected the address whose host was to name the preview. `hostname` is
      `new URL(x).hostname`, `None` when `x` does not parse. */
  function FetchPreview(url: string, response: ProviderResponse, hostname: string -> Option<string>)
    : (r: Option<Preview>)
    ensures response.Failed? ==> r.None?
    ensures r.Some? ==> r.value.url == url && r.value.status == Ok
    ensures r.Some? ==> r.value.description == response.data.description
    ensures r.Some? ==> r.value.image == FirstTruthy(ImageCandidates(response.data))
    ensures response.Json? && response.data.title != "" ==> r.Some? && r.value.title == response.data.title
    ensures response.Json? && response.data.title == "" ==>
      r == (var host := hostname(TitleSource(url, response.data));
            if host.Some? then Some(Preview(url, host.value, response.data.description,
                                            FirstTruthy(ImageCandidates(response.data)), Ok))
            else None)
  {
    match response
    case Failed => None
    case Json(d) =>
      var image := FirstTruthy(ImageCandidates(d));
      var title := if d.title != "" then Some(d.title) else hostname(TitleSource(url, d));
      if title.None? then None else Some(Preview(url, title.value, d.description, image, Ok))
  }

  /** The image of a resolved preview follows the priority `images[0]`, then `image`, then
      `icon`, then none. */
  lemma PreviewImagePriority(url: string, d: ProviderData, hostname: string -> Option<string>)
    requires FetchPreview(url, Json(d), hostname).Some?
    ensures var img := FetchPreview(url, Json(d), hostname).value.image;
      && (|d.images| > 0 && d.images[0] != "" ==> img == d.images[0])
      && ((|d.images| == 0 || d.images[0] == "") && d.image != "" ==> img == d.image)
      && ((|d.images| == 0 || d.images[0] == "") && d.image == "" && d.icon != "" ==> img == d.icon)
      && ((|d.images| == 0 || d.images[0] == "") && d.image == "" && d.icon == "" ==> img == "")
  {
    var c := ImageCandidates(d);
    if |d.images| > 0 {
      assert c == [d.images[0], d.image, d.icon];
      assert c[0] == d.images[0] && c[1] == d.image && c[2] == d.icon;
    } else {
      assert c == [d.image, d.icon];
      assert c[0] == d.image && c[1] == d.icon;
    }
  }
}
