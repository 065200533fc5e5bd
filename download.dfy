/**
 * Saving the generated image: the link the download button builds for the
 * final image, as a PNG data URL with a fixed file name.
 */
module Download {

  import opened Wrappers

  const DataUrlPrefix: string := "data:image/png;base64,"
  const DownloadFileName: string := "estilista-ia-imagem.png"

  /** The `href` and `download` attributes of the temporary link. */
  datatype Anchor = Anchor(href: string, download: string)

  /**
   * The link for the current final image. The guard `!finalImage` also holds
   * of the empty string, so there is no link for an absent or empty image;
   * otherwise the href is the data-URL prefix followed by the whole base64
   * payload, from which the payload is recovered unchanged.
   */
  function DownloadAnchor(finalImage: Option<string>): (a: Option<Anchor>)
    ensures a.None? <==> finalImage == None || finalImage == Some("")
    ensures a.Some? ==>
      && a.value.download == DownloadFileName
      && |a.value.href| == |DataUrlPrefix| + |finalImage.value|
      && a.value.href[..|DataUrlPrefix|] == DataUrlPrefix
      && a.value.href[|DataUrlPrefix|..] == finalImage.value
  {
    match finalImage
    case None => None
    case Some(image) =>
      if image == "" then None
      else
        var href := DataUrlPrefix + image;
        assert href[..|DataUrlPrefix|] == DataUrlPrefix;
        assert href[|DataUrlPrefix|..] == image;
        Some(Anchor(href, DownloadFileName))
  }
}
