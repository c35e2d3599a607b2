/** The server's configuration constants (`server/src/config.ts`), paths relative to `photosDir`. */
module Config {

  const PortfolioDir: string := "portfolio"
  const AlbumsDir: string := "albums"
  const ThumbnailsDir: string := ".thumbnails"

  const ImageExtensions: seq<string> := [".jpg", ".jpeg", ".png", ".webp", ".tiff", ".tif"]

  const ThumbnailMaxWidth: nat := 600
  const ThumbnailQuality: nat := 80
}
