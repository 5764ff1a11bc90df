/** The detail dialog for one image: its title, and the link the download
    button builds. */
module ImageModal {
  import opened Records
  import opened Text

  /** What the dialog shows and what its download link carries. */
  datatype Modal = Modal(title: string, imageSrc: string, imageAlt: string,
                         downloadHref: string, downloadName: string, downloadTarget: string)

  /** The dialog for `image`. Its title and the download file name are both
      the key's base name; the link and the picture both point at the
      signed URL, and the link opens in a new tab. */
  function ModalFor(image: S3Image): (m: Modal)
    ensures m.downloadName == m.title
    ensures m.downloadHref == image.url && m.imageSrc == image.url
    ensures m.imageAlt == image.key
    ensures m.downloadTarget == "_blank"
    ensures '/' !in image.key ==> m.title == image.key
    ensures LastSegment(image.key) != "" ==>
      m.title == LastSegment(image.key) && '/' !in m.title && EndsWith(image.key, m.title)
    ensures LastSegment(image.key) == "" ==> m.title == image.key
  {
    Modal(DisplayName(image.key), image.url, image.key, image.url, DisplayName(image.key), "_blank")
  }

  /** The title never ends up empty unless the key itself is. */
  lemma TitleNonEmpty(image: S3Image)
    requires image.key != ""
    ensures ModalFor(image).title != ""
  {
  }
}
