/**
 * The extension sets the category tables of both scripts are made of.
 * Apart from the shortcut set, which only the listing variant has, the
 * two tables list the same sets, under Korean or English names. Every
 * extension is lower-case and starts with a dot.
 */
module Extensions {
  /** Picture formats. */
  function ImageExts(): set<string>
  {
    {".jpg", ".jpeg", ".png", ".gif", ".bmp", ".svg", ".ico", ".webp", ".tiff"}
  }

  /** Office documents, text and Hangul word processor files. */
  function DocumentExts(): set<string>
  {
    {".pdf", ".doc", ".docx", ".txt", ".rtf", ".odt", ".xls", ".xlsx", ".ppt", ".pptx", ".csv", ".hwp"}
  }

  /** Video containers. */
  function VideoExts(): set<string>
  {
    {".mp4", ".avi", ".mkv", ".mov", ".wmv", ".flv", ".webm"}
  }

  /** Audio formats. */
  function AudioExts(): set<string>
  {
    {".mp3", ".wav", ".flac", ".aac", ".ogg", ".wma", ".m4a"}
  }

  /** Compressed archives. */
  function ArchiveExts(): set<string>
  {
    {".zip", ".rar", ".7z", ".tar", ".gz", ".bz2"}
  }

  /** Programs and scripts that run on their own. */
  function ExecutableExts(): set<string>
  {
    {".exe", ".msi", ".bat", ".cmd", ".ps1", ".sh"}
  }

  /** Source code and data-format files. */
  function CodeExts(): set<string>
  {
    {".py", ".js", ".ts", ".html", ".css", ".java", ".c", ".cpp", ".h", ".json", ".xml", ".yaml", ".yml"}
  }

  /** CAD drawings and models, with their backup and database files. */
  function CadExts(): set<string>
  {
    {".dwg", ".dxf", ".nwc", ".nwd", ".nwf", ".rvt", ".rfa", ".ifc", ".bak", ".sdf", ".dgn"}
  }

  /** Windows shortcuts and Internet shortcuts (only the listing variant has this category). */
  function ShortcutExts(): set<string>
  {
    {".lnk", ".url"}
  }

  // No extension is in two of the sets.
  lemma ImageApartDocument() ensures ImageExts() !! DocumentExts() {}
  lemma ImageApartVideo() ensures ImageExts() !! VideoExts() {}
  lemma ImageApartAudio() ensures ImageExts() !! AudioExts() {}
  lemma ImageApartArchive() ensures ImageExts() !! ArchiveExts() {}
  lemma ImageApartExecutable() ensures ImageExts() !! ExecutableExts() {}
  lemma ImageApartCode() ensures ImageExts() !! CodeExts() {}
  lemma ImageApartCad() ensures ImageExts() !! CadExts() {}
  lemma ImageApartShortcut() ensures ImageExts() !! ShortcutExts() {}
  lemma DocumentApartVideo() ensures DocumentExts() !! VideoExts() {}
  lemma DocumentApartAudio() ensures DocumentExts() !! AudioExts() {}
  lemma DocumentApartArchive() ensures DocumentExts() !! ArchiveExts() {}
  lemma DocumentApartExecutable() ensures DocumentExts() !! ExecutableExts() {}
  lemma DocumentApartCode() ensures DocumentExts() !! CodeExts() {}
  lemma DocumentApartCad() ensures DocumentExts() !! CadExts() {}
  lemma DocumentApartShortcut() ensures DocumentExts() !! ShortcutExts() {}
  lemma VideoApartAudio() ensures VideoExts() !! AudioExts() {}
  lemma VideoApartArchive() ensures VideoExts() !! ArchiveExts() {}
  lemma VideoApartExecutable() ensures VideoExts() !! ExecutableExts() {}
  lemma VideoApartCode() ensures VideoExts() !! CodeExts() {}
  lemma VideoApartCad() ensures VideoExts() !! CadExts() {}
  lemma VideoApartShortcut() ensures VideoExts() !! ShortcutExts() {}
  lemma AudioApartArchive() ensures AudioExts() !! ArchiveExts() {}
  lemma AudioApartExecutable() ensures AudioExts() !! ExecutableExts() {}
  lemma AudioApartCode() ensures AudioExts() !! CodeExts() {}
  lemma AudioApartCad() ensures AudioExts() !! CadExts() {}
  lemma AudioApartShortcut() ensures AudioExts() !! ShortcutExts() {}
  lemma ArchiveApartExecutable() ensures ArchiveExts() !! ExecutableExts() {}
  lemma ArchiveApartCode() ensures ArchiveExts() !! CodeExts() {}
  lemma ArchiveApartCad() ensures ArchiveExts() !! CadExts() {}
  lemma ArchiveApartShortcut() ensures ArchiveExts() !! ShortcutExts() {}
  lemma ExecutableApartCode() ensures ExecutableExts() !! CodeExts() {}
  lemma ExecutableApartCad() ensures ExecutableExts() !! CadExts() {}
  lemma ExecutableApartShortcut() ensures ExecutableExts() !! ShortcutExts() {}
  lemma CodeApartCad() ensures CodeExts() !! CadExts() {}
  lemma CodeApartShortcut() ensures CodeExts() !! ShortcutExts() {}
  lemma CadApartShortcut() ensures CadExts() !! ShortcutExts() {}
}
