/** The application's fixed configuration: the three top-level folders
    (media folders for the build script, storage buckets for the service)
    and the file extensions it serves. */
module Config {

  /** `FOLDERS_TO_SCAN` and the keys of `BUCKETS`: the three top-level
      folders, in the order every producer inserts them. */
  const FOLDER_KEYS: seq<string> := ["antraege", "presse", "wahlkampf"]

  /** `SUPPORTED_EXTENSIONS`, also the alternatives of the id regex
      `/\.(pdf|png|jpg|jpeg)$/i`. */
  const SUPPORTED_EXTENSIONS: seq<string> := [".pdf", ".png", ".jpg", ".jpeg"]
}
