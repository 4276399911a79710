/** The output-name derivation of `Posture.imageflow` in posture.py: the
    file part of the video path, its stem and extension, the stem made safe
    with `re.sub(r'[^\w\-_]', '_', ...)`, and the name of the annotated video. */
module OutputNames {
  import opened Base
  import opened PyStrings

  /** `file.split(".")[1]` raises `IndexError` on a file name without a dot. */
  datatype NameError = NoExtension

  /** The names the scan derives: `file`, `file_name`, `file_type`,
      `safe_file_name` (also the result folder) and the annotated video's name. */
  datatype Names = Names(file: string, fileName: string, fileType: string, safeName: string, saveName: string)

  /** `video_path.split("/")[-1]`, replaced by `video_path.split("\\")[-1]`
      when the path holds a backslash. */
  function BaseName(path: string): string
  {
    if '\\' in path then AfterLast(path, '\\') else AfterLast(path, '/')
  }

  /** The base name is the tail of the path after its last separator: the
      last backslash when there is one, otherwise the last slash. */
  lemma BaseNameSpec(path: string)
    ensures var file := BaseName(path);
      && |file| <= |path| && file == path[|path| - |file|..]
      && ('\\' in path ==> '\\' !in file && path[|path| - |file| - 1] == '\\')
      && ('\\' !in path ==> '/' !in file && ('/' in path ==> path[|path| - |file| - 1] == '/'))
      && ('\\' !in path && '/' !in path ==> file == path)
  {
    if '\\' in path {
      AfterLastSpec(path, '\\');
    } else {
      AfterLastSpec(path, '/');
    }
  }

  /** The regular-expression engine's `\w` class. */
  type WordClass = char -> bool

  /** `[A-Za-z0-9_]`. */
  predicate IsAsciiWord(ch: char)
  {
    ('a' <= ch <= 'z') || ('A' <= ch <= 'Z') || ('0' <= ch <= '9') || ch == '_'
  }

  /** A word class that agrees with Python's `\w` on ASCII: letters, digits
      and the underscore. */
  predicate PythonWordClass(w: WordClass)
  {
    forall ch: char :: ch as int < 128 ==> (w(ch) <==> IsAsciiWord(ch))
  }

  /** A member of `[\w\-_]`. */
  predicate IsSafe(ch: char, w: WordClass)
  {
    w(ch) || ch == '-' || ch == '_'
  }

  /** `re.sub(r'[^\w\-_]', '_', s)`: every character outside the class
      becomes `_`, one for one. */
  function Sanitize(s: string, w: WordClass): (r: string)
    ensures |r| == |s|
    ensures forall i :: 0 <= i < |s| ==> r[i] == (if IsSafe(s[i], w) then s[i] else '_')
  {
    if s == [] then []
    else [if IsSafe(s[0], w) then s[0] else '_'] + Sanitize(s[1..], w)
  }

  /** Every character of a sanitised name is a word character or `-`. */
  lemma SanitizeSafe(s: string, w: WordClass)
    requires PythonWordClass(w)
    ensures forall i :: 0 <= i < |s| ==> w(Sanitize(s, w)[i]) || Sanitize(s, w)[i] == '-'
  {
    assert IsAsciiWord('_');
  }

  /** A name made only of safe characters is left as it is. */
  lemma SanitizeKeepsSafe(s: string, w: WordClass)
    requires forall i :: 0 <= i < |s| ==> IsSafe(s[i], w)
    ensures Sanitize(s, w) == s
  {
  }

  /** Sanitising twice is sanitising once. */
  lemma SanitizeIdempotent(s: string, w: WordClass)
    ensures Sanitize(Sanitize(s, w), w) == Sanitize(s, w)
  {
    var r := Sanitize(s, w);
    assert forall i :: 0 <= i < |r| ==> IsSafe(r[i], w);
    SanitizeKeepsSafe(r, w);
  }

  /** Stem, extension, safe stem and save name of a base name:
      `file.split(".")[0]`, `"." + file.split(".")[1]`, the sanitised stem and
      `safe_file_name + "_jump" + file_type`. */
  function SplitName(file: string, w: WordClass): Result<Names, NameError>
  {
    var pieces := Split(file, '.');
    if |pieces| < 2 then Err(NoExtension)
    else
      var fileName := pieces[0];
      var fileType := ['.'] + pieces[1];
      var safeName := Sanitize(fileName, w);
      Ok(Names(file, fileName, fileType, safeName, safeName + "_jump" + fileType))
  }

  /** The names derived from a video path. */
  function DeriveNames(path: string, w: WordClass): Result<Names, NameError>
  {
    SplitName(BaseName(path), w)
  }

  /** A base name without a dot is an error, and only such a name. */
  lemma SplitNameError(file: string, w: WordClass)
    ensures SplitName(file, w).Err? <==> '.' !in file
  {
    SplitCount(file, '.');
    OccurrencesZero(file, '.');
  }

  /** For a base name with a dot, the stem is the text before the first dot,
      the extension is the dot plus the text up to the second dot (or the
      end), and the save name is built from the safe stem. */
  lemma SplitNameSpec(file: string, w: WordClass)
    requires '.' in file
    ensures SplitName(file, w).Ok?
    ensures var n := SplitName(file, w).value;
      && n.file == file
      && |n.fileType| >= 1 && |n.fileName| + |n.fileType| <= |file|
      && '.' !in n.fileName && file[..|n.fileName|] == n.fileName
      && n.fileType[0] == '.' && '.' !in n.fileType[1..]
      && file[..|n.fileName| + |n.fileType|] == n.fileName + n.fileType
      && (|n.fileName| + |n.fileType| < |file| ==> file[|n.fileName| + |n.fileType|] == '.')
      && n.safeName == Sanitize(n.fileName, w) && |n.safeName| == |n.fileName|
      && n.saveName == n.safeName + "_jump" + n.fileType
  {
    SplitNameError(file, w);
    var parts := Split(file, '.');
    SecondPieceSpec(file, '.');
    BeforeFirstSpec(file, '.');
    assert ['.'] + parts[1] == [file[|parts[0]|]] + parts[1];
  }

  /** The base name and the pieces of the example below. */
  lemma ExamplePieces(path: string)
    requires path == "jump.day1.mp4"
    ensures BaseName(path) == path
    ensures Split(path, '.') == ["jump", "day1", "mp4"]
  {
    assert '\\' !in path && '/' !in path;
    BaseNameSpec(path);
    var stem, second, last := "jump", "day1", "mp4";
    assert path == stem + ['.'] + (second + ['.'] + last);
    SplitFree(last, '.');
    SplitAfterFree(second, last, '.');
    SplitAfterFree(stem, second + ['.'] + last, '.');
  }

  /** A dotted stem loses everything after its first dot: the extension of
      `jump.day1.mp4` is `.day1`, not `.mp4`. */
  lemma SecondDotDecidesExtension(path: string)
    requires path == "jump.day1.mp4"
    ensures DeriveNames(path, IsAsciiWord) == Ok(Names(path, "jump", ".day1", "jump", "jump_jump.day1"))
  {
    ExamplePieces(path);
    SanitizeKeepsSafe("jump", IsAsciiWord);
    assert ['.'] + "day1" == ".day1";
    assert "jump" + "_jump" + ".day1" == "jump_jump.day1";
  }
}
