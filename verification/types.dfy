/** The records the server exchanges (`server/src/types.ts`). Absent optional fields are `None`. */
module Types {
  import opened Wrappers

  datatype Gps = Gps(latitude: real, longitude: real, altitude: Option<int>)

  datatype ExifData = ExifData(
    camera: Option<string>,
    lens: Option<string>,
    focalLength: Option<string>,
    aperture: Option<string>,
    shutterSpeed: Option<string>,
    iso: Option<Option<int>>,
    dateTaken: Option<string>,
    dimensions: Option<string>,
    aspectRatio: Option<string>,
    megapixels: Option<string>,
    exposureComp: Option<string>,
    whiteBalance: Option<string>,
    flash: Option<string>,
    colorSpace: Option<string>,
    keywords: Option<seq<string>>,
    gps: Option<Gps>)
  {
    /** `Object.keys(exif).length === 0`. */
    predicate IsEmpty() {
      && camera.None? && lens.None? && focalLength.None? && aperture.None? && shutterSpeed.None?
      && iso.None? && dateTaken.None? && dimensions.None? && aspectRatio.None? && megapixels.None?
      && exposureComp.None? && whiteBalance.None? && flash.None? && colorSpace.None?
      && keywords.None? && gps.None?
    }
  }

  const EmptyExif: ExifData := ExifData(None, None, None, None, None, None, None, None,
                                        None, None, None, None, None, None, None, None)

  datatype MediaType = Image | Video

  datatype ImageInfo = ImageInfo(
    filename: string,
    path: string,
    width: nat,
    height: nat,
    thumbnailUrl: string,
    fullUrl: string,
    downloadUrl: string,
    exif: Option<ExifData>,
    caption: Option<string>,
    mediaType: Option<MediaType>,
    duration: Option<real>,
    videoUrl: Option<string>)

  /** `img.exif?.dateTaken`. */
  function DateTakenOf(img: ImageInfo): Option<string> {
    if img.exif.Some? then img.exif.value.dateTaken else None
  }

  /** `img.exif?.keywords`. */
  function KeywordsOf(img: ImageInfo): Option<seq<string>> {
    if img.exif.Some? then img.exif.value.keywords else None
  }

  datatype AlbumInfo = AlbumInfo(
    name: string,
    slug: string,
    path: string,
    coverImage: Option<string>,
    coverWidth: Option<nat>,
    coverHeight: Option<nat>,
    imageCount: nat,
    hasPassword: bool,
    readme: Option<string>,
    updatedAt: Option<int>)

  datatype GroupInfo = GroupInfo(name: string, slug: string, albums: seq<AlbumInfo>)

  datatype AlbumTree = AlbumTree(groups: seq<GroupInfo>, albums: seq<AlbumInfo>)

  /** A session's `unlockedAlbums` list, absent until the first unlock. */
  datatype Session = Session(unlockedAlbums: Option<seq<string>>)
}
