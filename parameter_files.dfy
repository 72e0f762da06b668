/**
 * The customization file `runCLI` writes before an extraction: a JSON
 * document with the settings, the enabled feature classes and the enabled
 * image types, stored under the application's temporary directory.
 */
module ParameterFiles {

  /** A JSON value as `json.dump` writes it. */
  datatype JsonValue =
    | JNull
    | JBool(b: bool)
    | JNumber(n: real)
    | JString(s: string)
    | JList(items: seq<JsonValue>)
    | JObject(fields: map<string, JsonValue>)

  /**
   * The document `runCLI` dumps: `setting`, `featureClass` (each enabled
   * class mapped to null) and `imageType`.
   */
  datatype Configuration = Configuration(
    setting: map<string, JsonValue>,
    featureClass: set<string>,
    imageType: map<string, JsonValue>)

  /** What a file holds: a configuration this logic wrote, or a file it did not write. */
  datatype FileContent = Generated(config: Configuration) | Foreign

  /** The file name `runCLI` uses inside the temporary directory. */
  const ParameterFileName: string := "RadiomicsLogicParams.json"

  /**
   * `os.path.join(directory, name)` on POSIX: an absolute `name` replaces
   * the directory; otherwise a `/` is put between them unless the
   * directory is empty or already ends with one.
   */
  function PathJoin(directory: string, name: string): string
  {
    if name != [] && name[0] == '/' then name
    else if directory == [] || directory[|directory| - 1] == '/' then directory + name
    else directory + "/" + name
  }

  /**
   * A relative name is appended to the directory, separated by exactly one
   * added `/` when the directory does not supply one; so the joined path
   * starts with the directory and ends with the name.
   */
  lemma PathJoinParts(directory: string, name: string)
    requires name == [] || name[0] != '/'
    ensures var p := PathJoin(directory, name);
      && |p| >= |directory| + |name|
      && p[..|directory|] == directory
      && p[|p| - |name|..] == name
      && (directory != [] && directory[|directory| - 1] != '/' <==> |p| == |directory| + |name| + 1)
  {
    var p := PathJoin(directory, name);
    if directory == [] || directory[|directory| - 1] == '/' {
      assert p == directory + name;
    } else {
      assert p == directory + "/" + name;
      assert p[|p| - |name|..] == name;
    }
  }

  /** Joining onto a directory with or without its trailing `/` gives the same path. */
  lemma PathJoinTrailingSlash(directory: string, name: string)
    requires directory != [] && directory[|directory| - 1] != '/'
    ensures PathJoin(directory + "/", name) == PathJoin(directory, name)
  {
    var d := directory + "/";
    assert d[|d| - 1] == '/';
    if name != [] && name[0] == '/' {
    } else {
      assert d + name == directory + "/" + name;
    }
  }

  /** `settings['correctMask'] = True`: the one setting `runCLI` forces. */
  function WithCorrectMask(settings: map<string, JsonValue>): (r: map<string, JsonValue>)
    ensures "correctMask" in r && r["correctMask"] == JBool(true)
    ensures forall k :: k in settings && k != "correctMask" ==> k in r && r[k] == settings[k]
    ensures forall k :: k in r ==> k in settings || k == "correctMask"
  {
    settings["correctMask" := JBool(true)]
  }
}
