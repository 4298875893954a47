/**
 * The directory layout and the closed set of categories. Every root sits
 * directly under one base directory, whether that base is the installation
 * directory or the one handed to the watcher.
 */
module Config {
  import opened Paths

  const CATEGORIES: seq<string> := ["AUDIO", "IMAGES", "TEXT", "BLOBS"]

  function IngestDir(base: Path): Path { base + ["_INGEST"] }
  function UpdateDir(base: Path): Path { base + ["_UPDATE"] }
  function ArchiveDir(base: Path): Path { base + ["SovereignArchive"] }
  function SymlinkDir(base: Path): Path { base + ["SFT_Symlink"] }
}
