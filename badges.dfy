/** Picking the image of an NFT badge: the known badge table first, then the
    image named by the token's metadata (fetched through an HTTP gateway),
    then a default picture. `ipfs://` addresses are rewritten to the gateway. */
module Badges {
  import opened Wrappers
  import opened Text

  /** One entry of the badge table: display name, token URI, picture. */
  datatype BadgeChoice = BadgeChoice(name: string, uri: string, img: string)

  /** The badges' metadata, all in one IPFS folder. */
  const METADATA_FOLDER := "ipfs://bafybeigdyrzt4kqk6ovrj2kz2xtnixl2v3k6v4d7m4ax3nctz7psq4t5su/"
  const GOLD_URI := METADATA_FOLDER + "gold.json"
  const SILVER_URI := METADATA_FOLDER + "silver.json"
  const BRONZE_URI := METADATA_FOLDER + "bronze.json"

  const HTTPS := "https://"

  /** The badge pictures, all served from one icon CDN folder. */
  const ICON_FOLDER := HTTPS + "cdn-icons-png.flaticon.com/512/2583/"
  const GOLD_IMG := ICON_FOLDER + "2583344.png"
  const SILVER_IMG := ICON_FOLDER + "2583319.png"
  const BRONZE_IMG := ICON_FOLDER + "2583434.png"

  const NFT_CHOICES: seq<BadgeChoice> := [
    BadgeChoice("Gold Badge", GOLD_URI, GOLD_IMG),
    BadgeChoice("Silver Badge", SILVER_URI, SILVER_IMG),
    BadgeChoice("Bronze Badge", BRONZE_URI, BRONZE_IMG)
  ]

  const DEFAULT_BADGE_IMG := ICON_FOLDER + "2583344.png"

  const IPFS_PREFIX := "ipfs://"
  const IPFS_GATEWAY := HTTPS + "cloudflare-ipfs.com/ipfs/"

  /** An address under `https://` starts with that scheme and is no `ipfs://`
      address. */
  lemma HttpsAddress(rest: string)
    ensures StartsWith(HTTPS + rest, HTTPS) && !StartsWith(HTTPS + rest, IPFS_PREFIX)
  {
    var t := HTTPS + rest;
    assert t[..|HTTPS|] == HTTPS;
    assert t[0] == 'h';
  }

  /** `s.replace(/^ipfs:\/\//, gateway)`: never an `ipfs://` address, and any
      other address is left alone. */
  function RewriteIpfs(s: string): (r: string)
    ensures !StartsWith(r, IPFS_PREFIX)
    ensures !StartsWith(s, IPFS_PREFIX) ==> r == s
  {
    if StartsWith(s, IPFS_PREFIX) then
      HttpsAddress("cloudflare-ipfs.com/ipfs/" + s[|IPFS_PREFIX|..]);
      assert IPFS_GATEWAY + s[|IPFS_PREFIX|..] == HTTPS + ("cloudflare-ipfs.com/ipfs/" + s[|IPFS_PREFIX|..]);
      IPFS_GATEWAY + s[|IPFS_PREFIX|..]
    else s
  }

  /** The rewrite keeps the content path behind the gateway, and a second
      rewrite changes nothing. */
  lemma RewriteIpfsProperties(s: string, path: string)
    ensures RewriteIpfs(IPFS_PREFIX + path) == IPFS_GATEWAY + path
    ensures RewriteIpfs(RewriteIpfs(s)) == RewriteIpfs(s)
  {
    var p := IPFS_PREFIX + path;
    assert p[..|IPFS_PREFIX|] == IPFS_PREFIX && p[|IPFS_PREFIX|..] == path;
  }

  /** The picture of the first table entry whose URI is `uri`; a picture
      found is the picture of an entry with that URI. */
  function LookupImage(choices: seq<BadgeChoice>, uri: string): (r: Option<string>)
    ensures r.Some? ==> exists i :: 0 <= i < |choices| && choices[i].uri == uri && r.value == choices[i].img
    decreases |choices|
  {
    if choices == [] then None
    else if choices[0].uri == uri then Some(choices[0].img)
    else
      var r := LookupImage(choices[1..], uri);
      assert r.Some? ==> exists i :: 0 <= i < |choices[1..]| && choices[1..][i].uri == uri && r.value == choices[1..][i].img;
      assert forall i :: 0 <= i < |choices[1..]| ==> choices[1..][i] == choices[i + 1];
      r
  }

  /** The lookup finds a picture exactly when some entry has the URI, and then
      it is the picture of the first such entry. */
  lemma {:induction false} LookupImageFirstMatch(choices: seq<BadgeChoice>, uri: string)
    ensures LookupImage(choices, uri).None? <==> forall i :: 0 <= i < |choices| ==> choices[i].uri != uri
    ensures LookupImage(choices, uri).Some? ==>
      exists i :: 0 <= i < |choices| && choices[i].uri == uri
        && LookupImage(choices, uri).value == choices[i].img
        && forall k :: 0 <= k < i ==> choices[k].uri != uri
    decreases |choices|
  {
    if choices != [] && choices[0].uri != uri {
      LookupImageFirstMatch(choices[1..], uri);
      if LookupImage(choices, uri).Some? {
        var i :| 0 <= i < |choices[1..]| && choices[1..][i].uri == uri
          && LookupImage(choices[1..], uri).value == choices[1..][i].img
          && forall k :: 0 <= k < i ==> choices[1..][k].uri != uri;
        assert choices[i + 1] == choices[1..][i];
        forall k | 0 <= k < i + 1 ensures choices[k].uri != uri {
          if k > 0 {
            assert choices[k] == choices[1..][k - 1];
          }
        }
      }
    } else if choices != [] {
      assert choices[0].uri == uri;
    }
  }

  /** `resolveNFTImageUrl(uri)`: a scan of the badge table. */
  method ResolveNFTImageUrl(uri: string) returns (r: Option<string>)
    ensures r == LookupImage(NFT_CHOICES, uri)
    ensures r.None? <==> forall i :: 0 <= i < |NFT_CHOICES| ==> NFT_CHOICES[i].uri != uri
  {
    LookupImageFirstMatch(NFT_CHOICES, uri);
    var i := 0;
    while i < |NFT_CHOICES|
      invariant 0 <= i <= |NFT_CHOICES|
      invariant LookupImage(NFT_CHOICES[i..], uri) == LookupImage(NFT_CHOICES, uri)
    {
      if NFT_CHOICES[i].uri == uri {
        return Some(NFT_CHOICES[i].img);
      }
      assert NFT_CHOICES[i..][1..] == NFT_CHOICES[i + 1..];
      i := i + 1;
    }
    return None;
  }

  /** What the metadata fetch got back: a failed fetch or unreadable JSON, a
      response that is not OK, the JSON's `image` and `image_url` fields as
      strings (the empty string standing for a missing or falsy field), or
      JSON whose picked field (`image` when truthy, else `image_url`) is a
      truthy value that is not a string, on which `replace` throws. */
  datatype MetadataResponse = FetchFailed | NotOk | Json(image: string, imageUrl: string) | NonStringPicture

  /** `fetchMetadataImage`'s result for a response: `image`, else
      `image_url`, rewritten to the gateway; nothing when both are empty, and
      nothing when the picked field is not a string (the `TypeError` is
      caught and `null` returned). */
  function MetadataImage(resp: MetadataResponse): (r: Option<string>)
    ensures r.Some? ==> r.value != [] && !StartsWith(r.value, IPFS_PREFIX)
    ensures r.Some? <==> resp.Json? && (resp.image != [] || resp.imageUrl != [])
    ensures resp.Json? && resp.image != [] ==> r == Some(RewriteIpfs(resp.image))
    ensures resp.Json? && resp.image == [] && resp.imageUrl != [] ==> r == Some(RewriteIpfs(resp.imageUrl))
    ensures resp.NonStringPicture? ==> r.None?
  {
    match resp
    case Json(image, imageUrl) =>
      var picked := if image != [] then image else imageUrl;
      if picked == [] then None
      else
        assert StartsWith(picked, IPFS_PREFIX) ==> |RewriteIpfs(picked)| >= |IPFS_GATEWAY|;
        Some(RewriteIpfs(picked))
    case _ => None
  }

  /** Every picture of the badge table, and the default picture, is an
      `https://` address. */
  lemma ChoiceImagesAreHttp()
    ensures forall i :: 0 <= i < |NFT_CHOICES| ==> StartsWith(NFT_CHOICES[i].img, HTTPS)
    ensures StartsWith(DEFAULT_BADGE_IMG, HTTPS)
  {
    var rest := "cdn-icons-png.flaticon.com/512/2583/";
    HttpsAddress(rest + "2583344.png");
    HttpsAddress(rest + "2583319.png");
    HttpsAddress(rest + "2583434.png");
    assert GOLD_IMG == HTTPS + (rest + "2583344.png");
    assert SILVER_IMG == HTTPS + (rest + "2583319.png");
    assert BRONZE_IMG == HTTPS + (rest + "2583434.png");
    assert NFT_CHOICES[0].img == GOLD_IMG && NFT_CHOICES[1].img == SILVER_IMG && NFT_CHOICES[2].img == BRONZE_IMG;
  }

  /** The badge picture shown for a token with URI `uri`, given what the
      metadata fetch of the gateway address would return. It is a table
      picture, the metadata picture or the default; never empty and never an
      `ipfs://` address. */
  function BadgeImage(uri: string, resp: MetadataResponse): (r: string)
    ensures r != [] && !StartsWith(r, IPFS_PREFIX)
    ensures || (exists i :: 0 <= i < |NFT_CHOICES| && r == NFT_CHOICES[i].img)
            || MetadataImage(resp) == Some(r)
            || r == DEFAULT_BADGE_IMG
  {
    ChoiceImagesAreHttp();
    HttpsAddress("cdn-icons-png.flaticon.com/512/2583/2583344.png");
    assert forall i :: 0 <= i < |NFT_CHOICES| ==> NFT_CHOICES[i].img[0] == 'h' && |NFT_CHOICES[i].img| > 0;
    var known := LookupImage(NFT_CHOICES, uri);
    if known.Some? && known.value != [] then
      assert known.value[0] == 'h';
      known.value
    else
      var fetched := MetadataImage(resp);
      if fetched.Some? && fetched.value != [] then fetched.value
      else
        assert DEFAULT_BADGE_IMG[0] == 'h';
        DEFAULT_BADGE_IMG
  }

  /** No two entries of the badge table share a URI. */
  lemma ChoiceUrisDistinct()
    ensures forall i, j :: 0 <= i < j < |NFT_CHOICES| ==> NFT_CHOICES[i].uri != NFT_CHOICES[j].uri
  {
    var n := |METADATA_FOLDER|;
    assert GOLD_URI[n] == 'g' && SILVER_URI[n] == 's' && BRONZE_URI[n] == 'b';
    assert NFT_CHOICES[0].uri == GOLD_URI && NFT_CHOICES[1].uri == SILVER_URI && NFT_CHOICES[2].uri == BRONZE_URI;
  }

  /** The three-step fallback: a known URI shows its table picture whatever
      the fetch returns; otherwise the metadata picture; otherwise the default. */
  lemma BadgeImageFallback(uri: string, resp: MetadataResponse)
    ensures forall i :: 0 <= i < |NFT_CHOICES| && NFT_CHOICES[i].uri == uri ==>
      BadgeImage(uri, resp) == NFT_CHOICES[i].img
    ensures (forall i :: 0 <= i < |NFT_CHOICES| ==> NFT_CHOICES[i].uri != uri) ==>
      BadgeImage(uri, resp) == (if MetadataImage(resp).Some? then MetadataImage(resp).value else DEFAULT_BADGE_IMG)
  {
    LookupImageFirstMatch(NFT_CHOICES, uri);
    ChoiceUrisDistinct();
    ChoiceImagesAreHttp();
    forall i | 0 <= i < |NFT_CHOICES| && NFT_CHOICES[i].uri == uri
      ensures BadgeImage(uri, resp) == NFT_CHOICES[i].img
    {
      var j :| 0 <= j < |NFT_CHOICES| && NFT_CHOICES[j].uri == uri
        && LookupImage(NFT_CHOICES, uri).value == NFT_CHOICES[j].img
        && forall k :: 0 <= k < j ==> NFT_CHOICES[k].uri != uri;
      assert i == j;
    }
  }
}
