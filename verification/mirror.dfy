/**
 * The mirror switcher: the built-in registry of package indexes, the
 * lookup of the configured index, and the two operations that rewrite the
 * pip configuration file, each of which first copies the file to its
 * `.bak` backup.
 *
 * The file is an optional map from section to (key to value); the backup
 * is another such value. `None` means the file does not exist.
 */
module Mirror {
  import opened Wrappers
  import opened Text

  type Section = map<string, string>
  type Config = map<string, Section>

  /** One entry of `PIP_CONFIGS`, or the custom profile; an empty host means none. */
  datatype Profile = Profile(id: string, url: string, trustedHost: string)

  const Global: string := "global"
  const IndexUrl: string := "index-url"
  const TrustedHost: string := "trusted-host"
  const Default: string := "default"
  const Custom: string := "custom"

  /** `PIP_CONFIGS`, in its iteration order. */
  const Registry: seq<Profile> := [
    Profile("default", "https://pypi.org/simple", "pypi.org"),
    Profile("tsinghua", "https://pypi.tuna.tsinghua.edu.cn/simple", "pypi.tuna.tsinghua.edu.cn"),
    Profile("aliyun", "https://mirrors.aliyun.com/pypi/simple/", "mirrors.aliyun.com"),
    Profile("douban", "https://pypi.douban.com/simple/", "pypi.douban.com"),
    Profile("ustc", "https://pypi.mirrors.ustc.edu.cn/simple/", "pypi.mirrors.ustc.edu.cn"),
    Profile("tencent", "https://mirrors.cloud.tencent.com/pypi/simple", "mirrors.cloud.tencent.com")
  ]

  /** Ids and URLs of the registry are pairwise distinct; no built-in id is `custom`; every built-in host is set. */
  lemma RegistryDistinct()
    ensures forall i, j :: 0 <= i < j < |Registry| ==> Registry[i].url != Registry[j].url
    ensures forall i, j :: 0 <= i < j < |Registry| ==> Registry[i].id != Registry[j].id
    ensures forall i :: 0 <= i < |Registry| ==> Registry[i].id != Custom && Registry[i].trustedHost != ""
  {
  }

  /** The URL of a profile, the key `get_current_source` searches by. */
  function UrlOf(p: Profile): string { p.url }

  /** The id of a profile, the key `PIP_CONFIGS.get` looks up. */
  function IdOf(p: Profile): string { p.id }

  /**
   * The first registry index at or after `k` whose `key` is `value`:
   * `UrlOf` gives the URL loop of `get_current_source`, `IdOf` gives
   * `PIP_CONFIGS.get(id)`.
   */
  function Lookup(key: Profile -> string, value: string, k: nat): (r: Option<nat>)
    requires k <= |Registry|
    ensures r.Some? ==> k <= r.value < |Registry| && key(Registry[r.value]) == value
    ensures r.Some? ==> forall i :: k <= i < r.value ==> key(Registry[i]) != value
    ensures r.None? ==> forall i :: k <= i < |Registry| ==> key(Registry[i]) != value
    decreases |Registry| - k
  {
    if k == |Registry| then None
    else if key(Registry[k]) == value then Some(k)
    else Lookup(key, value, k + 1)
  }

  /** The file exists and holds `global.index-url`. */
  predicate HasIndexUrl(file: Option<Config>) {
    file.Some? && Global in file.value && IndexUrl in file.value[Global]
  }

  /**
   * `get_current_source`: `default` without a file or without
   * `global.index-url`; otherwise the id of the built-in profile with that
   * URL, which is unique, or `custom` when no built-in profile has it.
   */
  function CurrentSource(file: Option<Config>): (r: string)
    ensures !HasIndexUrl(file) ==> r == Default
    ensures HasIndexUrl(file) ==>
      forall i :: 0 <= i < |Registry| ==> (r == Registry[i].id <==> file.value[Global][IndexUrl] == Registry[i].url)
    ensures HasIndexUrl(file) ==>
      (r == Custom <==> forall i :: 0 <= i < |Registry| ==> Registry[i].url != file.value[Global][IndexUrl])
  {
    RegistryDistinct();
    if !HasIndexUrl(file) then Default
    else
      match Lookup(UrlOf, file.value[Global][IndexUrl], 0)
      case Some(i) => Registry[i].id
      case None => Custom
  }

  /** Why `set_source` refused a selection or could not write it. */
  datatype SetError = MissingCustomUrl | UnknownSource | InvalidInterpolation

  // ---------------------------------------------------------------------
  // ConfigParser's check on `cfg.set`: with its default `%` interpolation,
  // a value is refused unless every `%` belongs to a `%%` escape or to a
  // `%(name)s` reference.

  /** The value with its `%%` pairs removed, left to right. */
  function DropEscapes(s: string): (r: string)
    ensures |r| <= |s|
  {
    if s == [] then []
    else if |s| >= 2 && s[0] == '%' && s[1] == '%' then DropEscapes(s[2..])
    else [s[0]] + DropEscapes(s[1..])
  }

  /** The index of the first `)` in `s` at or after `k`, if any. */
  function CloseParen(s: string, k: nat): (r: Option<nat>)
    ensures r.Some? ==> k <= r.value < |s| && s[r.value] == ')'
    ensures r.Some? ==> forall j :: k <= j < r.value ==> s[j] != ')'
    ensures r.None? ==> forall j :: k <= j < |s| ==> s[j] != ')'
    decreases |s| - k
  {
    if k >= |s| then None
    else if s[k] == ')' then Some(k)
    else CloseParen(s, k + 1)
  }

  /**
   * The length of a `%(name)s` reference at the start of `s`, if any: the
   * name is non-empty and ends at the first `)`, which `s` must follow.
   */
  function ReferenceLength(s: string): (n: Option<nat>)
    ensures n.Some? ==> 4 < n.value <= |s| && s[0] == '%' && s[1] == '(' && s[n.value - 1] == 's'
  {
    if |s| < 2 || s[0] != '%' || s[1] != '(' then None
    else
      match CloseParen(s, 2)
      case None => None
      case Some(c) => if c >= 3 && c + 1 < |s| && s[c + 1] == 's' then Some(c + 2) else None
  }

  /** The value with its `%(name)s` references removed, left to right. */
  function DropReferences(s: string): (r: string)
    ensures |r| <= |s|
    decreases |s|
  {
    if s == [] then []
    else
      match ReferenceLength(s)
      case Some(n) => DropReferences(s[n..])
      case None => [s[0]] + DropReferences(s[1..])
  }

  /** `cfg.set` accepts the value: no `%` is left once escapes and references are removed. */
  predicate SetAllowed(value: string): (ok: bool)
    ensures '%' !in value ==> ok
  {
    DropEscapesKeepsPlain(value);
    DropReferencesKeepsPlain(DropEscapes(value));
    '%' !in DropReferences(DropEscapes(value))
  }

  /** Text before the first `%` passes through the escape removal unchanged. */
  lemma {:induction false} DropEscapesPrefix(a: string, rest: string)
    requires '%' !in a
    ensures DropEscapes(a + rest) == a + DropEscapes(rest)
  {
    if a == [] {
      assert a + rest == rest;
    } else {
      assert (a + rest)[1..] == a[1..] + rest;
      DropEscapesPrefix(a[1..], rest);
    }
  }

  /** A first character other than `%` is kept by the reference removal. */
  lemma DropReferencesPlain(s: string)
    requires s != [] && s[0] != '%'
    ensures DropReferences(s) == [s[0]] + DropReferences(s[1..])
  {
    assert ReferenceLength(s) == None;
  }

  /** Text before the first `%` passes through the reference removal unchanged. */
  lemma {:induction false} DropReferencesPrefix(a: string, rest: string)
    requires '%' !in a
    ensures DropReferences(a + rest) == a + DropReferences(rest)
  {
    if a == [] {
      assert a + rest == rest;
    } else {
      var s := a + rest;
      assert s[0] == a[0] && a[0] in a;
      DropReferencesPlain(s);
      assert s[1..] == a[1..] + rest;
      DropReferencesPrefix(a[1..], rest);
      calc {
        DropReferences(s);
        [s[0]] + DropReferences(a[1..] + rest);
        [a[0]] + (a[1..] + DropReferences(rest));
        { assert [a[0]] + a[1..] == a; }
        a + DropReferences(rest);
      }
    }
  }

  /** A value without `%` holds no escape to remove. */
  lemma DropEscapesKeepsPlain(s: string)
    ensures '%' !in s ==> DropEscapes(s) == s
  {
    if '%' !in s {
      DropEscapesPrefix(s, []);
      assert s + [] == s;
    }
  }

  /** A value without `%` holds no reference to remove. */
  lemma DropReferencesKeepsPlain(s: string)
    ensures '%' !in s ==> DropReferences(s) == s
  {
    if '%' !in s {
      DropReferencesPrefix(s, []);
      assert s + [] == s;
    }
  }

  /**
   * A first `%` followed by neither `%` nor `(` is refused, whatever comes
   * after it: a percent-encoded character such as `%40` in a URL.
   */
  lemma PercentRefused(a: string, c: char, b: string)
    requires '%' !in a && c != '%' && c != '('
    ensures !SetAllowed(a + ['%', c] + b)
  {
    var t := ['%', c] + b;
    assert a + ['%', c] + b == a + t;
    DropEscapesPrefix(a, t);
    assert t[1..] == [c] + b;
    assert ([c] + b)[1..] == b;
    var e := ['%', c] + DropEscapes(b);
    assert DropEscapes(t) == e;
    DropReferencesPrefix(a, e);
    assert ReferenceLength(e).None?;
    assert DropReferences(e) == ['%'] + DropReferences(e[1..]);
    assert (a + DropReferences(e))[|a|] == '%';
  }

  /** A `%` as the last character, with no `%` before it, is refused. */
  lemma PercentAtEndRefused(a: string)
    requires '%' !in a
    ensures !SetAllowed(a + "%")
  {
    DropEscapesPrefix(a, "%");
    assert DropEscapes("%") == "%";
    DropReferencesPrefix(a, "%");
    assert ReferenceLength("%") == None;
    assert DropReferences("%") == "%" + DropReferences([]);
    assert (a + "%")[|a|] == '%';
  }

  /** A `%%` escape between text without `%` is accepted. */
  lemma EscapeAllowed(a: string, b: string)
    requires '%' !in a && '%' !in b
    ensures SetAllowed(a + "%%" + b)
  {
    assert a + "%%" + b == a + ("%%" + b);
    DropEscapesPrefix(a, "%%" + b);
    assert ("%%" + b)[2..] == b;
    DropEscapesKeepsPlain(b);
    assert '%' !in a + b;
    DropReferencesKeepsPlain(a + b);
  }

  /** A reference spans `%(`, the name, and `)s`. */
  lemma ReferenceLengthOf(name: string, b: string)
    requires name != [] && ')' !in name
    ensures ReferenceLength("%(" + name + ")s" + b) == Some(|name| + 4)
  {
    var t := "%(" + name + ")s" + b;
    assert t[|name| + 2] == ')' && t[|name| + 3] == 's';
    assert forall j :: 2 <= j < |name| + 2 ==> t[j] == name[j - 2];
    var c := CloseParen(t, 2);
    assert c.Some? && c.value <= |name| + 2;
  }

  /** A reference whose name and tail hold no `%` has no escape to remove. */
  lemma ReferenceHasNoEscape(name: string, b: string)
    requires '%' !in name && '%' !in b
    ensures DropEscapes("%(" + name + ")s" + b) == "%(" + name + ")s" + b
  {
    var t := "%(" + name + ")s" + b;
    assert t[1..] == "(" + name + ")s" + b;
    assert '%' !in t[1..];
    DropEscapesKeepsPlain(t[1..]);
    assert t == [t[0]] + t[1..];
  }

  /** A `%(name)s` reference between text without `%` is accepted. */
  lemma ReferenceAllowed(a: string, name: string, b: string)
    requires '%' !in a && '%' !in b
    requires name != [] && '%' !in name && ')' !in name
    ensures SetAllowed(a + "%(" + name + ")s" + b)
  {
    var t := "%(" + name + ")s" + b;
    assert a + "%(" + name + ")s" + b == a + t;
    DropEscapesPrefix(a, t);
    ReferenceHasNoEscape(name, b);
    DropReferencesPrefix(a, t);
    ReferenceLengthOf(name, b);
    assert t[|name| + 4..] == b;
    DropReferencesKeepsPlain(b);
    assert DropReferences(t) == b;
    assert '%' !in a + b;
  }

  /**
   * The profile `set_source` will write: `custom` needs a non-empty URL and
   * gets no trusted host; any other id must name a built-in profile.
   */
  function Resolve(selected: string, customUrl: string): (r: Result<Profile, SetError>)
    ensures selected == Custom ==>
      r == (if customUrl == "" then Err(MissingCustomUrl) else Ok(Profile(Custom, customUrl, "")))
    ensures selected != Custom ==>
      (r.Ok? <==> exists i :: 0 <= i < |Registry| && Registry[i].id == selected)
    ensures selected != Custom && r.Ok? ==> r.value in Registry && r.value.id == selected
    ensures selected != Custom && r.Err? ==> r.error == UnknownSource
  {
    if selected == Custom then
      if customUrl == "" then Err(MissingCustomUrl) else Ok(Profile(Custom, customUrl, ""))
    else
      match Lookup(IdOf, selected, 0)
      case None => Err(UnknownSource)
      case Some(i) => Ok(Registry[i])
  }

  /** The configuration `set_source` starts from: the file's contents, or nothing. */
  function Base(file: Option<Config>): Config {
    if file.Some? then file.value else map[]
  }

  /**
   * The patch `set_source` applies: `global.index-url` becomes the
   * profile's URL, `global.trusted-host` its host or is removed when it has
   * none, and every other section and key is left as it was.
   */
  function Patched(cfg: Config, p: Profile): (r: Config)
    ensures r.Keys == cfg.Keys + {Global}
    ensures forall s :: s in cfg && s != Global ==> r[s] == cfg[s]
    ensures IndexUrl in r[Global] && r[Global][IndexUrl] == p.url
    ensures p.trustedHost != "" ==> TrustedHost in r[Global] && r[Global][TrustedHost] == p.trustedHost
    ensures p.trustedHost == "" ==> TrustedHost !in r[Global]
    ensures forall k :: k != IndexUrl && k != TrustedHost ==>
      (k in r[Global] <==> Global in cfg && k in cfg[Global]) &&
      (k in r[Global] ==> r[Global][k] == cfg[Global][k])
  {
    var sec := if Global in cfg then cfg[Global] else map[];
    var sec := sec[IndexUrl := p.url];
    var sec := if p.trustedHost != "" then sec[TrustedHost := p.trustedHost] else sec - {TrustedHost};
    cfg[Global := sec]
  }

  /** After writing a built-in profile, the switcher reports that profile. */
  lemma ApplyBuiltinThenCurrent(file: Option<Config>, i: nat)
    requires i < |Registry|
    ensures CurrentSource(Some(Patched(Base(file), Registry[i]))) == Registry[i].id
  {
    var after := Some(Patched(Base(file), Registry[i]));
    assert HasIndexUrl(after);
  }

  /**
   * After writing a custom URL, the switcher reports `custom` exactly when
   * the URL is not a built-in one, and otherwise that built-in profile:
   * the lookup goes by URL, not by the id last chosen.
   */
  lemma ApplyCustomThenCurrent(file: Option<Config>, url: string)
    ensures var r := CurrentSource(Some(Patched(Base(file), Profile(Custom, url, ""))));
      (r == Custom <==> forall i :: 0 <= i < |Registry| ==> Registry[i].url != url) &&
      forall i :: 0 <= i < |Registry| && Registry[i].url == url ==> r == Registry[i].id
  {
    var after := Some(Patched(Base(file), Profile(Custom, url, "")));
    assert HasIndexUrl(after);
  }

  /** The state of the dialog's files: the configuration and its `.bak` copy. */
  class SourceSwitcher {
    var file: Option<Config>
    var backup: Option<Config>

    constructor (file: Option<Config>, backup: Option<Config>)
      ensures this.file == file && this.backup == backup
    {
      this.file := file;
      this.backup := backup;
    }

    /** The switcher's current id, as the dialog shows it. */
    function Current(): (id: string)
      reads this
      ensures file.None? ==> id == Default
      ensures HasIndexUrl(file) && file.value[Global][IndexUrl] == Registry[0].url ==> id == Default
    {
      CurrentSource(file)
    }

    /** `backup_config`: copies the file to the backup when it exists. */
    method BackupConfig() returns (made: bool)
      modifies this`backup
      ensures made == file.Some?
      ensures backup == if file.Some? then file else old(backup)
    {
      made := file.Some?;
      if made {
        backup := file;
      }
    }

    /**
     * `set_source`: backs the file up, then either refuses the selection,
     * or fails when `cfg.set` rejects the custom URL (in both cases the file
     * is untouched and the backup already written), or writes the patched
     * configuration.
     */
    method SetSource(selected: string, customUrl: string) returns (result: Result<bool, SetError>)
      modifies this
      ensures backup == if old(file).Some? then old(file) else old(backup)
      ensures Resolve(selected, customUrl).Err? ==>
        result == Err(Resolve(selected, customUrl).error) && file == old(file)
      ensures selected == Custom && customUrl != "" && !SetAllowed(customUrl) ==>
        result == Err(InvalidInterpolation) && file == old(file)
      ensures Resolve(selected, customUrl).Ok? && (selected != Custom || SetAllowed(customUrl)) ==>
        result == Ok(old(file).Some?) && file == Some(Patched(Base(old(file)), Resolve(selected, customUrl).value))
    {
      var madeBackup := BackupConfig();
      var resolved := Resolve(selected, customUrl);
      if resolved.Err? {
        return Err(resolved.error);
      }
      var p := resolved.value;
      if selected == Custom && !SetAllowed(customUrl) {
        // `cfg.set` raises before anything is written; the built-in values hold no `%`
        return Err(InvalidInterpolation);
      }
      WriteProfile(p);
      result := Ok(madeBackup);
    }

    /** Reads the file (or starts empty), sets the profile's keys and writes it back. */
    method WriteProfile(p: Profile)
      modifies this`file
      ensures file == Some(Patched(Base(old(file)), p))
    {
      var cfg := if file.Some? then file.value else map[];
      if Global !in cfg {
        cfg := cfg[Global := map[]];
      }
      cfg := cfg[Global := cfg[Global][IndexUrl := p.url]];
      if p.trustedHost != "" {
        cfg := cfg[Global := cfg[Global][TrustedHost := p.trustedHost]];
      } else if TrustedHost in cfg[Global] {
        cfg := cfg[Global := cfg[Global] - {TrustedHost}];
      }
      ghost var want := Patched(Base(old(file)), p);
      assert cfg[Global].Keys == want[Global].Keys;
      assert cfg[Global] == want[Global];
      assert cfg == want;
      file := Some(cfg);
    }

    /**
     * `restore_default`: an existing file is backed up and removed, after
     * which the switcher reports `default`; without a file nothing changes.
     */
    method RestoreDefault() returns (removed: bool)
      modifies this
      ensures removed == old(file).Some?
      ensures removed ==> backup == old(file) && file.None?
      ensures !removed ==> backup == old(backup) && file == old(file)
      ensures Current() == Default
    {
      removed := file.Some?;
      if removed {
        var _ := BackupConfig();
        file := None;
      }
    }
  }
}
