/**
 * `_get_file_category`: a file belongs to the category named by its parent
 * directory, or else to the one its lower-cased extension selects.
 */
module Categories {
  import opened Text
  import opened Paths
  import opened Config

  const AUDIO_EXTENSIONS: set<string> := {".mp3", ".wav", ".flac", ".aac", ".ogg", ".m4a", ".wma"}
  const IMAGE_EXTENSIONS: set<string> := {".jpg", ".jpeg", ".png", ".gif", ".bmp", ".tiff", ".svg", ".webp"}
  const TEXT_EXTENSIONS: set<string> :=
    {".txt", ".md", ".pdf", ".doc", ".docx", ".rtf", ".odt", ".csv", ".json", ".xml",
     ".html", ".css", ".js", ".py", ".java", ".cpp", ".c", ".h", ".sql"}

  /** The extension fallback: AUDIO, IMAGES or TEXT for a known extension, BLOBS otherwise. */
  function ExtensionCategory(extension: string): (r: string)
    ensures r in CATEGORIES
    ensures r == "AUDIO" <==> extension in AUDIO_EXTENSIONS
    ensures r == "IMAGES" <==> extension in IMAGE_EXTENSIONS
    ensures r == "TEXT" <==> extension in TEXT_EXTENSIONS
    ensures r == "BLOBS" <==>
      extension !in AUDIO_EXTENSIONS + IMAGE_EXTENSIONS + TEXT_EXTENSIONS
  {
    if extension in AUDIO_EXTENSIONS then "AUDIO"
    else if extension in IMAGE_EXTENSIONS then "IMAGES"
    else if extension in TEXT_EXTENSIONS then "TEXT"
    else "BLOBS"
  }

  /** The category of a file: its parent directory's name if that is a category, else by extension. */
  function FileCategory(filePath: Path): (r: string)
    ensures r in CATEGORIES
    ensures Name(Parent(filePath)) in CATEGORIES ==> r == Name(Parent(filePath))
    ensures Name(Parent(filePath)) !in CATEGORIES ==>
      r == ExtensionCategory(Lower(Suffix(Name(filePath))))
  {
    if Name(Parent(filePath)) in CATEGORIES then Name(Parent(filePath))
    else ExtensionCategory(Lower(Suffix(Name(filePath))))
  }

  /** The suffix of `stem.ext` is `.ext` when neither part has a dot and the stem is not empty. */
  lemma SuffixOfDottedName(stem: string, ext: string)
    requires stem != "" && '.' !in stem
    requires ext != "" && '.' !in ext
    ensures Suffix(stem + "." + ext) == "." + ext
  {
    var name := stem + "." + ext;
    assert LastIndexOf(name, '.') == |stem| by {
      assert name == stem + ['.'] + ext;
      LastIndexOfBeforeSuffix(stem, '.', ext);
    }
    assert name[|stem|..] == "." + ext;
  }

  /**
   * Outside a category directory, `stem.ext` is classified by ".ext" lower-cased,
   * so `photo.JPG` and `photo.jpg` land in the same category.
   */
  lemma CategoryOfDottedName(dir: Path, stem: string, ext: string)
    requires Name(dir) !in CATEGORIES
    requires stem != "" && '.' !in stem
    requires ext != "" && '.' !in ext
    ensures FileCategory(dir + [stem + "." + ext]) == ExtensionCategory(Lower("." + ext))
  {
    var p := dir + [stem + "." + ext];
    assert Parent(p) == dir;
    assert Name(p) == stem + "." + ext;
    SuffixOfDottedName(stem, ext);
  }
}
