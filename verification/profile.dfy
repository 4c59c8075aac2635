/** Resolving the Firefox profile directory (`find_firefox_profile`). */
module ProfileLocator {
  import opened Wrappers
  import opened Errors
  import opened Files

  /** One section of a parsed profiles.ini. configparser lower-cases option
      names, so the keys here are "default", "path" and "isrelative". */
  datatype Section = Section(name: string, options: map<string, string>)

  /** configparser's `get(section, key, fallback=...)`. */
  function Get(s: Section, key: string, fallback: string): string {
    if key in s.options then s.options[key] else fallback
  }

  predicate IsDefault(s: Section) {
    Get(s, "default", "0") == "1"
  }

  predicate IsRelative(s: Section) {
    Get(s, "isrelative", "1") == "1"
  }

  /** An explicit profile counts only when it is truthy: None and "" do not. */
  predicate Configured(firefoxProfile: Option<string>) {
    firefoxProfile.Some? && firefoxProfile.value != ""
  }

  function FirefoxDirUnder(home: Path): Path {
    Join(Join(home, ".mozilla"), "firefox")
  }

  /** Section `i` is the first one, in file order, marked Default=1. */
  ghost predicate FirstDefaultAt(sections: seq<Section>, i: int) {
    && 0 <= i < |sections|
    && IsDefault(sections[i])
    && forall j :: 0 <= j < i ==> !IsDefault(sections[j])
  }

  /** The index of the first default section at or after `from`. */
  function FirstDefaultFrom(sections: seq<Section>, from: nat): (r: Option<nat>)
    requires from <= |sections|
    requires forall j :: 0 <= j < from ==> !IsDefault(sections[j])
    ensures r.None? <==> forall j :: 0 <= j < |sections| ==> !IsDefault(sections[j])
    ensures r.Some? ==> FirstDefaultAt(sections, r.value)
    decreases |sections| - from
  {
    if from == |sections| then None
    else if IsDefault(sections[from]) then Some(from)
    else FirstDefaultFrom(sections, from + 1)
  }

  /** The profile directory a default section names: its Path, joined onto
      the Firefox directory unless IsRelative says otherwise. */
  function SectionProfile(firefoxDir: Path, s: Section): Result<Path, Error> {
    if "path" !in s.options then Err(NoOption(s.name, "path"))
    else if IsRelative(s) then Ok(Join(firefoxDir, s.options["path"]))
    else Ok(s.options["path"])
  }

  /** What `find_firefox_profile` returns or raises. `firefoxDirExists` and
      `profilesIni` (None when the file is missing) stand for the file system. */
  function ProfileFor(firefoxProfile: Option<string>, home: Path, firefoxDirExists: bool,
                      profilesIni: Option<seq<Section>>): Result<Path, Error>
  {
    if Configured(firefoxProfile) then Ok(firefoxProfile.value)
    else if !firefoxDirExists then Err(FileNotFound(FirefoxDir))
    else if profilesIni.None? then Err(FileNotFound(ProfilesIni))
    else match FirstDefaultFrom(profilesIni.value, 0)
      case None => Err(FileNotFound(DefaultProfile))
      case Some(i) => SectionProfile(FirefoxDirUnder(home), profilesIni.value[i])
  }

  /** The resolution rules: an explicit profile wins unchanged; otherwise the
      first Default=1 section decides, and no such section is an error. */
  lemma ProfileForRules(firefoxProfile: Option<string>, home: Path, firefoxDirExists: bool,
                        profilesIni: Option<seq<Section>>)
    ensures var r := ProfileFor(firefoxProfile, home, firefoxDirExists, profilesIni);
      && (Configured(firefoxProfile) ==> r == Ok(firefoxProfile.value))
      && (!Configured(firefoxProfile) && profilesIni.Some? && firefoxDirExists ==>
            && (r == Err(FileNotFound(DefaultProfile)) <==>
                  forall j :: 0 <= j < |profilesIni.value| ==> !IsDefault(profilesIni.value[j]))
            && forall i :: FirstDefaultAt(profilesIni.value, i) ==>
                  r == SectionProfile(FirefoxDirUnder(home), profilesIni.value[i]))
  {
    if !Configured(firefoxProfile) && profilesIni.Some? && firefoxDirExists {
      var ss := profilesIni.value;
      var f := FirstDefaultFrom(ss, 0);
      forall i | FirstDefaultAt(ss, i)
        ensures ProfileFor(firefoxProfile, home, firefoxDirExists, profilesIni)
                == SectionProfile(FirefoxDirUnder(home), ss[i])
      {
        assert f.Some? && FirstDefaultAt(ss, f.value);
      }
    }
  }

  /** A relative section resolves inside the Firefox directory, an absolute
      one to its Path unchanged. */
  lemma SectionProfileRelative(firefoxDir: Path, s: Section)
    requires "path" in s.options
    ensures IsRelative(s) && !IsAbsolute(s.options["path"]) ==>
      SectionProfile(firefoxDir, s) == Ok(firefoxDir + "/" + s.options["path"])
    ensures !IsRelative(s) ==> SectionProfile(firefoxDir, s) == Ok(s.options["path"])
  {
  }

  /** `find_firefox_profile`: scans the sections in order and returns on the
      first one with Default=1. */
  method FindFirefoxProfile(firefoxProfile: Option<string>, home: Path, firefoxDirExists: bool,
                            profilesIni: Option<seq<Section>>)
    returns (r: Result<Path, Error>)
    ensures r == ProfileFor(firefoxProfile, home, firefoxDirExists, profilesIni)
  {
    if Configured(firefoxProfile) {
      return Ok(firefoxProfile.value);
    }
    var firefoxDir := FirefoxDirUnder(home);
    if !firefoxDirExists {
      return Err(FileNotFound(FirefoxDir));
    }
    if profilesIni.None? {
      return Err(FileNotFound(ProfilesIni));
    }
    var sections := profilesIni.value;
    var i := 0;
    while i < |sections|
      invariant 0 <= i <= |sections|
      invariant forall j :: 0 <= j < i ==> !IsDefault(sections[j])
    {
      var s := sections[i];
      if IsDefault(s) {
        assert FirstDefaultAt(sections, i);
        if "path" !in s.options {
          return Err(NoOption(s.name, "path"));
        }
        var path := s.options["path"];
        if IsRelative(s) {
          return Ok(Join(firefoxDir, path));
        } else {
          return Ok(path);
        }
      }
      i := i + 1;
    }
    return Err(FileNotFound(DefaultProfile));
  }
}
