/** The configuration tree (nark/config/inify.py): sections holding settings
    and subsections, with path lookup, a dotted `setdefault`, loading from a
    nested dict and dumping back to one.

    A section is a value here; the settings it holds are `KeyChainedValue`
    objects, updated in place. The root section is held by a `Config` object,
    and a section's link to its parent is the path of names from the root. */
module Inify {
  import opened Wrappers
  import opened PyValue
  import PyText
  import opened KeyChainedVal

  /** One `ConfigDecorator`: its name, its settings and its subsections (both
      dicts kept in insertion order, keyed by name), and the settings declared
      through it that no subsection has claimed yet (`_kv_cache`). */
  datatype ConfigDecorator = ConfigDecorator(
    name: string,
    keyVals: seq<KeyChainedValue>,
    sections: seq<ConfigDecorator>,
    kvCache: seq<KeyChainedValue>)

  /** What the lookups return: a section or a setting. */
  datatype Found = FoundSection(section: ConfigDecorator) | FoundSetting(setting: KeyChainedValue)
  {
    function Name(): string {
      if FoundSection? then section.name else setting.name
    }
  }

  /** A nested config dict: a plain value, or a dict of entries. */
  datatype Entry = Leaf(value: Value) | Sub(entries: map<string, Entry>)

  /** The argument of the `section` decorator: a section name, or a class
      (the section is then named after it). */
  datatype SectionArg = ByName(name: string) | ByClass(className: string)
  {
    function SectionName(): string {
      if ByName? then name else className
    }
  }

  /** The keyword flags of `download_to_dict`. */
  datatype Flags = Flags(skipUnset: bool, useDefaults: bool, addHidden: bool)

  const NoFlags := Flags(false, false, false)

  // ---- Insertion-ordered dicts, as sequences keyed by name ----

  function SectionKey(s: ConfigDecorator): string { s.name }

  function SettingKey(k: KeyChainedValue): string { k.name }

  /** Entry `x` sits under key `k`. */
  predicate HasKey<T>(key: T -> string, x: T, k: string) {
    key(x) == k
  }

  /** `d[k]` when present. */
  function Lookup<T>(xs: seq<T>, key: T -> string, k: string): (r: Option<T>)
    ensures r.Some? ==> r.value in xs && HasKey(key, r.value, k)
    ensures r.None? <==> forall i :: 0 <= i < |xs| ==> !HasKey(key, xs[i], k)
  {
    if xs == [] then None
    else if key(xs[0]) == k then Some(xs[0])
    else Lookup(xs[1..], key, k)
  }

  /** `d[key(x)] = x`: replaces the entry in place, or appends a new one. */
  function Put<T>(xs: seq<T>, key: T -> string, x: T): (r: seq<T>)
    ensures Lookup(r, key, key(x)) == Some(x)
    ensures forall k :: k != key(x) ==> Lookup(r, key, k) == Lookup(xs, key, k)
    ensures Lookup(xs, key, key(x)).None? ==> r == xs + [x]
    ensures forall y :: y in r ==> y == x || y in xs
  {
    if xs == [] then [x]
    else if key(xs[0]) == key(x) then [x] + xs[1..]
    else [xs[0]] + Put(xs[1..], key, x)
  }

  /** The last entry of `ys` with key `k`. */
  function LastWith<T>(ys: seq<T>, key: T -> string, k: string): (r: Option<T>)
    ensures r.Some? ==> r.value in ys && HasKey(key, r.value, k)
    ensures r.None? <==> forall i :: 0 <= i < |ys| ==> !HasKey(key, ys[i], k)
  {
    if ys == [] then None
    else if key(ys[|ys| - 1]) == k then Some(ys[|ys| - 1])
    else LastWith(ys[..|ys| - 1], key, k)
  }

  /** `d.update(e)`: for every key the last entry of `e` wins, and keys `e`
      does not mention keep their entry. */
  function UpdateAll<T>(xs: seq<T>, key: T -> string, ys: seq<T>): (r: seq<T>)
    ensures forall k :: Lookup(r, key, k) == if LastWith(ys, key, k).Some? then LastWith(ys, key, k) else Lookup(xs, key, k)
    ensures forall y :: y in r ==> y in xs || y in ys
  {
    if ys == [] then xs
    else Put(UpdateAll(xs, key, ys[..|ys| - 1]), key, ys[|ys| - 1])
  }

  /** A dict's keys are distinct. */
  predicate UniqueKeys<T>(xs: seq<T>, key: T -> string) {
    forall i, j :: 0 <= i < j < |xs| ==> key(xs[i]) != key(xs[j])
  }

  /** With distinct keys, the first and the last entry with a key are one. */
  lemma UniqueLastIsFirst<T>(xs: seq<T>, key: T -> string, k: string)
    requires UniqueKeys(xs, key)
    ensures LastWith(xs, key, k) == Lookup(xs, key, k)
  {
    var a, b := LastWith(xs, key, k), Lookup(xs, key, k);
    if a.Some? && b.Some? {
      var i :| 0 <= i < |xs| && xs[i] == a.value;
      var j :| 0 <= j < |xs| && xs[j] == b.value;
      assert i == j;
    }
  }

  /** `Put` keeps the keys distinct. */
  lemma {:induction false} PutUnique<T>(xs: seq<T>, key: T -> string, x: T)
    requires UniqueKeys(xs, key)
    ensures UniqueKeys(Put(xs, key, x), key)
  {
    if xs == [] {
    } else if key(xs[0]) == key(x) {
      assert forall i :: 0 < i < |xs| ==> ([x] + xs[1..])[i] == xs[i];
    } else {
      var rest := Put(xs[1..], key, x);
      PutUnique(xs[1..], key, x);
      forall y | y in rest
        ensures key(y) != key(xs[0])
      {
        if y != x {
          var t :| 0 <= t < |xs| - 1 && xs[1..][t] == y;
          assert xs[t + 1] == y;
        }
      }
      ConsUnique(xs[0], rest, key);
    }
  }

  lemma ConsUnique<T>(h: T, rest: seq<T>, key: T -> string)
    requires UniqueKeys(rest, key) && forall y :: y in rest ==> key(y) != key(h)
    ensures UniqueKeys([h] + rest, key)
  {
    var r := [h] + rest;
    forall i, j | 0 <= i < j < |r|
      ensures key(r[i]) != key(r[j])
    {
      assert r[j] == rest[j - 1] && rest[j - 1] in rest;
      if i > 0 {
        assert r[i] == rest[i - 1];
      }
    }
  }

  // ---- The tree ----

  /** The settings of a section and of all its subsections. */
  function Frame(n: ConfigDecorator): set<KeyChainedValue>
    decreases n, 1
  {
    (set k | k in n.keyVals) + FrameAll(n.sections)
  }

  function FrameAll(ss: seq<ConfigDecorator>): set<KeyChainedValue>
    decreases ss, 0
  {
    set i, k | 0 <= i < |ss| && k in Frame(ss[i]) :: k
  }

  /** The pending settings of a section and of all its subsections. */
  function Caches(n: ConfigDecorator): set<KeyChainedValue>
    decreases n, 1
  {
    (set k | k in n.kvCache) + CachesAll(n.sections)
  }

  function CachesAll(ss: seq<ConfigDecorator>): set<KeyChainedValue>
    decreases ss, 0
  {
    set i, k | 0 <= i < |ss| && k in Caches(ss[i]) :: k
  }

  /** `_walk`: the settings in visiting order, this section's first, then
      each subsection's in turn. */
  function Walk(n: ConfigDecorator): seq<KeyChainedValue>
    decreases n, 1
  {
    n.keyVals + WalkAll(n.sections)
  }

  function WalkAll(ss: seq<ConfigDecorator>): seq<KeyChainedValue>
    decreases ss, 0
  {
    if ss == [] then [] else WalkAll(ss[..|ss| - 1]) + Walk(ss[|ss| - 1])
  }

  /** The walk visits exactly the settings of the tree. */
  lemma {:induction false} WalkCoversFrame(n: ConfigDecorator, k: KeyChainedValue)
    ensures k in Walk(n) <==> k in Frame(n)
    decreases n, 1
  {
    WalkAllCoversFrameAll(n.sections, k);
  }

  lemma {:induction false} WalkAllCoversFrameAll(ss: seq<ConfigDecorator>, k: KeyChainedValue)
    ensures k in WalkAll(ss) <==> k in FrameAll(ss)
    decreases ss, 0
  {
    if ss != [] {
      var init, last := ss[..|ss| - 1], ss[|ss| - 1];
      WalkAllCoversFrameAll(init, k);
      WalkCoversFrame(last, k);
      assert WalkAll(ss) == WalkAll(init) + Walk(last);
      if k in FrameAll(ss) {
        var i :| 0 <= i < |ss| && k in Frame(ss[i]);
        if i < |ss| - 1 {
          assert init[i] == ss[i];
          assert k in FrameAll(init);
        }
      }
      if k in WalkAll(init) {
        var i :| 0 <= i < |init| && k in Frame(init[i]);
        assert ss[i] == init[i];
      }
    }
  }

  /** The section at a path of names below `n`; a missing name raises
      KeyError, as `conf_dcor._sections[name]` does. */
  function Get(n: ConfigDecorator, path: seq<string>): (r: Result<ConfigDecorator, ConfigError>)
    ensures r.Success? && path != [] ==> r.value.name == path[|path| - 1]
    ensures r.Failure? ==> r.error.MissingSection? && r.error.section in path
    decreases |path|
  {
    if path == [] then Success(n)
    else
      match Lookup(n.sections, SectionKey, path[0])
      case None => Failure(MissingSection(path[0]))
      case Some(c) => Get(c, path[1..])
  }

  /** Descending one more name is a lookup among the reached section's
      subsections. */
  lemma {:induction false} GetSnoc(n: ConfigDecorator, path: seq<string>, name: string)
    requires Get(n, path).Success?
    ensures Get(n, path + [name]) ==
      match Lookup(Get(n, path).value.sections, SectionKey, name)
      case None => Failure(MissingSection(name))
      case Some(c) => Success(c)
    decreases |path|
  {
    if path == [] {
      assert [] + [name] == [name];
    } else {
      var c := Lookup(n.sections, SectionKey, path[0]).value;
      assert (path + [name])[1..] == path[1..] + [name];
      GetSnoc(c, path[1..], name);
    }
  }

  /** Every prefix of a path that leads to a section leads to one. */
  lemma {:induction false} GetPrefix(n: ConfigDecorator, path: seq<string>, i: nat)
    requires Get(n, path).Success?
    requires i <= |path|
    ensures Get(n, path[..i]).Success?
    decreases |path|
  {
    if i > 0 {
      var c := Lookup(n.sections, SectionKey, path[0]).value;
      GetPrefix(c, path[1..], i - 1);
      assert path[..i][1..] == path[1..][..i - 1];
    }
  }

  /** Along a path that leads to a section, each name is found among the
      subsections of the section its prefix leads to. */
  lemma PathStepExists(n: ConfigDecorator, path: seq<string>, i: nat)
    requires Get(n, path).Success? && i < |path|
    ensures Get(n, path[..i]).Success?
    ensures Lookup(Get(n, path[..i]).value.sections, SectionKey, path[i]).Some?
  {
    GetPrefix(n, path, i + 1);
    GetPrefix(n, path, i);
    GetSnoc(n, path[..i], path[i]);
    assert path[..i + 1] == path[..i] + [path[i]];
  }

  /** The tree with the section at `path` replaced by `s`, every section on
      the way keeping its place among its siblings. */
  function Replace(n: ConfigDecorator, path: seq<string>, s: ConfigDecorator): (r: ConfigDecorator)
    requires Get(n, path).Success?
    requires path != [] ==> s.name == path[|path| - 1]
    ensures Get(r, path) == Success(s)
    ensures path == [] ==> r == s
    ensures path != [] ==> r.name == n.name && r.keyVals == n.keyVals && r.kvCache == n.kvCache
    decreases |path|
  {
    if path == [] then s
    else
      var c := Lookup(n.sections, SectionKey, path[0]).value;
      n.(sections := Put(n.sections, SectionKey, Replace(c, path[1..], s)))
  }

  /** Replacing a section by one with no more pending settings than it had
      adds no pending setting to the tree. */
  lemma {:induction false} ReplaceCaches(n: ConfigDecorator, path: seq<string>, s: ConfigDecorator)
    requires Get(n, path).Success?
    requires path != [] ==> s.name == path[|path| - 1]
    requires Caches(s) <= Caches(Get(n, path).value)
    ensures Caches(Replace(n, path, s)) <= Caches(n)
    decreases |path|
  {
    if path != [] {
      var c := Lookup(n.sections, SectionKey, path[0]).value;
      var c' := Replace(c, path[1..], s);
      ReplaceCaches(c, path[1..], s);
      var ss := Put(n.sections, SectionKey, c');
      forall k | k in CachesAll(ss)
        ensures k in CachesAll(n.sections)
      {
        var i :| 0 <= i < |ss| && k in Caches(ss[i]);
        assert ss[i] in ss;
        if ss[i] == c' {
          var j :| 0 <= j < |n.sections| && n.sections[j] == c;
          assert k in Caches(n.sections[j]);
        } else {
          var j :| 0 <= j < |n.sections| && n.sections[j] == ss[i];
          assert k in Caches(n.sections[j]);
        }
      }
    }
  }

  /** The pending settings of a section reached by a path belong to the
      tree's. */
  lemma {:induction false} GetCaches(n: ConfigDecorator, path: seq<string>)
    requires Get(n, path).Success?
    ensures Caches(Get(n, path).value) <= Caches(n)
    decreases |path|
  {
    if path != [] {
      var c := Lookup(n.sections, SectionKey, path[0]).value;
      GetCaches(c, path[1..]);
      var j :| 0 <= j < |n.sections| && n.sections[j] == c;
      assert Caches(c) <= CachesAll(n.sections) by {
        forall k | k in Caches(c)
          ensures k in CachesAll(n.sections)
        {
          assert k in Caches(n.sections[j]);
        }
      }
    }
  }

  // ---- Lookups ----

  /** `_section_path`: `lineage` is the chain of section names from the root
      down to the receiver; the root's own name is left out and the names
      below it are joined with `sep`, followed by `parts`. */
  function SectionPath(lineage: seq<string>, parts: seq<string>, sep: string): (r: string)
    requires |lineage| >= 1
    ensures r == PyText.Join(lineage[1..] + parts, sep)
    ensures |lineage| == 1 && parts == [] ==> r == ""
    decreases |lineage|
  {
    if |lineage| == 1 then
      assert lineage[1..] + parts == parts;
      PyText.Join(parts, sep)
    else
      var up := lineage[..|lineage| - 1];
      assert up[1..] + ([lineage[|lineage| - 1]] + parts) == lineage[1..] + parts;
      SectionPath(up, [lineage[|lineage| - 1]] + parts, sep)
  }

  /** The environment variable of a setting is named after its section's
      path, as `_section_path` spells it. */
  lemma EnvNameUsesSectionPath(rootName: string, path: seq<string>, name: string)
    ensures EnvName(path, name) == "DOB_" + PyText.Upper(SectionPath([rootName] + path, [], "_")) + "_" + PyText.Upper(name)
  {
    assert ([rootName] + path)[1..] + [] == path;
  }

  /** The section and the setting this section itself has under `name`,
      in that order; sections are left out when `skip` is set. */
  function Exact(n: ConfigDecorator, name: string, skip: bool): (r: seq<Found>)
    ensures |r| <= 2
    ensures forall i :: 0 <= i < |r| ==> r[i].Name() == name
    ensures skip ==> forall i :: 0 <= i < |r| ==> r[i].FoundSetting?
  {
    var sec := Lookup(n.sections, SectionKey, name);
    var set_ := Lookup(n.keyVals, SettingKey, name);
    (if sec.Some? && !skip then [FoundSection(sec.value)] else [])
    + (if set_.Some? then [FoundSetting(set_.value)] else [])
  }

  /** `_find_objects_named`: every section and setting named `name`
      anywhere below `n`, this level's exact matches first, then each
      subsection's matches in insertion order. */
  function FindObjectsNamed(n: ConfigDecorator, name: string, skip: bool): (r: seq<Found>)
    ensures forall i :: 0 <= i < |r| ==> r[i].Name() == name
    ensures skip ==> forall i :: 0 <= i < |r| ==> r[i].FoundSetting?
    ensures |Exact(n, name, skip)| <= |r| && r[..|Exact(n, name, skip)|] == Exact(n, name, skip)
    decreases n, 1
  {
    Exact(n, name, skip) + FindAllNamed(n.sections, name, skip)
  }

  function FindAllNamed(ss: seq<ConfigDecorator>, name: string, skip: bool): (r: seq<Found>)
    ensures forall i :: 0 <= i < |r| ==> r[i].Name() == name
    ensures skip ==> forall i :: 0 <= i < |r| ==> r[i].FoundSetting?
    decreases ss, 0
  {
    if ss == [] then []
    else FindAllNamed(ss[..|ss| - 1], name, skip) + FindObjectsNamed(ss[|ss| - 1], name, skip)
  }

  lemma {:induction false} FindAllNamedHas(ss: seq<ConfigDecorator>, j: int, name: string, skip: bool, o: Found)
    requires 0 <= j < |ss| && o in FindObjectsNamed(ss[j], name, skip)
    ensures o in FindAllNamed(ss, name, skip)
    decreases |ss|
  {
    if j < |ss| - 1 {
      assert ss[..|ss| - 1][j] == ss[j];
      FindAllNamedHas(ss[..|ss| - 1], j, name, skip, o);
    }
  }

  /** The loose search is complete: a setting held by any section below `n`
      is among the objects found under its name. */
  lemma {:induction false} FindsNestedSetting(n: ConfigDecorator, path: seq<string>, name: string, skip: bool)
    requires Get(n, path).Success? && Lookup(Get(n, path).value.keyVals, SettingKey, name).Some?
    ensures FoundSetting(Lookup(Get(n, path).value.keyVals, SettingKey, name).value) in FindObjectsNamed(n, name, skip)
    decreases |path|
  {
    var k := Lookup(Get(n, path).value.keyVals, SettingKey, name).value;
    if path == [] {
      var e := Exact(n, name, skip);
      assert FoundSetting(k) == e[|e| - 1];
      assert FindObjectsNamed(n, name, skip)[|e| - 1] == e[|e| - 1];
    } else {
      var c := Lookup(n.sections, SectionKey, path[0]).value;
      FindsNestedSetting(c, path[1..], name, skip);
      var j :| 0 <= j < |n.sections| && n.sections[j] == c;
      FindAllNamedHas(n.sections, j, name, skip, FoundSetting(k));
    }
  }

  /** `_find`: no parts gives the receiver; one part a loose search of the
      whole tree; several parts descend through the named sections exactly
      and give the section, then the setting, named by the last part. */
  function Find(n: ConfigDecorator, parts: seq<string>, skip: bool): (r: Result<seq<Found>, ConfigError>)
    ensures parts == [] ==> r == Success([FoundSection(n)])
    ensures |parts| == 1 ==> r == Success(FindObjectsNamed(n, parts[0], skip))
    ensures |parts| >= 2 ==> (r.Success? <==> Get(n, parts[..|parts| - 1]).Success?)
    ensures |parts| >= 2 && r.Success? ==> r.value == Exact(Get(n, parts[..|parts| - 1]).value, parts[|parts| - 1], skip)
    ensures parts != [] && r.Success? ==> forall i :: 0 <= i < |r.value| ==> r.value[i].Name() == parts[|parts| - 1]
  {
    if parts == [] then Success([FoundSection(n)])
    else if |parts| == 1 then Success(FindObjectsNamed(n, parts[0], skip))
    else
      var d :- Get(n, parts[..|parts| - 1]);
      Success(Exact(d, parts[|parts| - 1], skip))
  }

  /** `_find_setting`: the first setting found, if any (with no parts, the
      receiver itself). */
  function FindSetting(n: ConfigDecorator, parts: seq<string>): (r: Result<Option<Found>, ConfigError>)
    ensures r.Failure? <==> Find(n, parts, true).Failure?
    ensures parts == [] ==> r == Success(Some(FoundSection(n)))
    ensures parts != [] && r.Success? && r.value.Some? ==>
      r.value.value.FoundSetting? && r.value.value.setting.name == parts[|parts| - 1]
    ensures r.Success? ==> (r.value.None? <==> Find(n, parts, true).value == [])
  {
    var objects :- Find(n, parts, true);
    if objects != [] then Success(Some(objects[0])) else Success(None)
  }

  /** `_find_one_object`: the dotted name is split on '.' and looked up with
      `Find`; more than one object raises KeyError, none raises Exception. */
  function FindOneObject(n: ConfigDecorator, name: string): (r: Result<Found, ConfigError>)
    ensures var f := Find(n, PyText.SplitOn(name, '.'), false);
      && (r.Success? <==> f.Success? && |f.value| == 1)
      && (r.Success? ==> f.value == [r.value])
      && (f.Success? && |f.value| > 1 ==> r == Failure(Ambiguous(name)))
      && (f.Success? && f.value == [] ==> r == Failure(Unrecognized(name)))
      && (f.Failure? ==> r == Failure(f.error))
  {
    var parts := PyText.SplitOn(name, '.');
    var objects :- Find(n, parts, false);
    if |objects| > 1 then Failure(Ambiguous(name))
    else if objects != [] then Success(objects[0])
    else Failure(Unrecognized(name))
  }

  /** A name without a dot is looked up loosely through the whole tree. */
  lemma UndottedIsLoose(n: ConfigDecorator, name: string)
    requires '.' !in name
    ensures var objs := FindObjectsNamed(n, name, false);
      FindOneObject(n, name) == if |objs| == 1 then Success(objs[0])
                                else if objs == [] then Failure(Unrecognized(name))
                                else Failure(Ambiguous(name))
  {
    PyText.SplitOnNoSep(name, '.');
  }

  /** `a.b` is looked up exactly: the section `a` of the receiver must exist,
      and only its own `b` counts. */
  lemma DottedIsExact(n: ConfigDecorator, a: string, b: string)
    requires '.' !in a && '.' !in b
    ensures Find(n, PyText.SplitOn(a + "." + b, '.'), false) == Find(n, [a, b], false)
  {
    SplitOnConcat(a, b);
  }

  lemma {:induction false} SplitOnConcat(a: string, b: string)
    requires '.' !in a && '.' !in b
    ensures PyText.SplitOn(a + "." + b, '.') == [a, b]
    decreases |a|
  {
    if a == [] {
      assert a + "." + b == "." + b;
      assert ("." + b)[1..] == b;
      PyText.SplitOnNoSep(b, '.');
    } else {
      assert (a + "." + b)[1..] == a[1..] + "." + b;
      SplitOnConcat(a[1..], b);
      assert [a[0]] + a[1..] == a;
    }
  }

  /** A section reached by a path holds settings of the tree only. */
  lemma {:induction false} GetFrame(n: ConfigDecorator, path: seq<string>)
    requires Get(n, path).Success?
    ensures Frame(Get(n, path).value) <= Frame(n)
    decreases |path|
  {
    if path != [] {
      var c := Lookup(n.sections, SectionKey, path[0]).value;
      GetFrame(c, path[1..]);
      var j :| 0 <= j < |n.sections| && n.sections[j] == c;
      forall k | k in Frame(c)
        ensures k in FrameAll(n.sections)
      {
        assert k in Frame(n.sections[j]);
      }
    }
  }

  /** Every setting the loose search finds belongs to the tree. */
  lemma {:induction false} FoundInFrame(n: ConfigDecorator, name: string, skip: bool, o: Found)
    requires o in FindObjectsNamed(n, name, skip) && o.FoundSetting?
    ensures o.setting in Frame(n)
    decreases n, 1
  {
    if o !in Exact(n, name, skip) {
      FoundAllInFrame(n.sections, name, skip, o);
    }
  }

  lemma {:induction false} FoundAllInFrame(ss: seq<ConfigDecorator>, name: string, skip: bool, o: Found)
    requires o in FindAllNamed(ss, name, skip) && o.FoundSetting?
    ensures o.setting in FrameAll(ss)
    decreases ss, 0
  {
    var init, last := ss[..|ss| - 1], ss[|ss| - 1];
    if o in FindAllNamed(init, name, skip) {
      FoundAllInFrame(init, name, skip, o);
      var i :| 0 <= i < |init| && o.setting in Frame(init[i]);
      assert ss[i] == init[i];
    } else {
      FoundInFrame(last, name, skip, o);
      assert o.setting in Frame(ss[|ss| - 1]);
    }
  }

  /** The setting `FindOneObject` returns belongs to the tree. */
  lemma OneObjectInFrame(n: ConfigDecorator, name: string)
    requires FindOneObject(n, name).Success? && FindOneObject(n, name).value.FoundSetting?
    ensures FindOneObject(n, name).value.setting in Frame(n)
  {
    var parts := PyText.SplitOn(name, '.');
    var o := FindOneObject(n, name).value;
    if |parts| == 1 {
      FoundInFrame(n, parts[0], false, o);
    } else {
      GetFrame(n, parts[..|parts| - 1]);
    }
  }

  // ---- Loading from a dict ----

  /** The value `update_from_dict` hands to a setting: a nested dict stands
      for itself, true when non-empty. */
  function EntryValue(e: Entry): Value {
    match e
    case Leaf(v) => v
    case Sub(m) => VOther("dict", |m| != 0)
  }

  /** A setting `update_from_dict` assigns: not ephemeral, and named in the
      dict. */
  predicate Assigned(k: KeyChainedValue, config: map<string, Entry>)
    reads k`section
  {
    !k.Ephemeral() && k.name in config
  }

  /** When `update_from_dict` succeeds: every subsection named in the dict is
      given a dict that it accepts, and every assigned setting of this section
      accepts its value. */
  predicate Accepts(n: ConfigDecorator, config: map<string, Entry>)
    reads Frame(n)`section
    decreases n, 1
  {
    && AcceptsAll(n.sections, config)
    && forall k :: k in n.keyVals && Assigned(k, config) ==> k.Stored(EntryValue(config[k.name])).Success?
  }

  predicate AcceptsAll(ss: seq<ConfigDecorator>, config: map<string, Entry>)
    reads FrameAll(ss)`section
    decreases ss, 0
  {
    forall i :: 0 <= i < |ss| && ss[i].name in config ==>
      config[ss[i].name].Sub? && Accepts(ss[i], config[ss[i].name].entries)
  }

  /** The settings `update_from_dict` assigns, at every level it reaches. */
  function Targets(n: ConfigDecorator, config: map<string, Entry>): set<KeyChainedValue>
    reads Frame(n)`section
    decreases n, 1
  {
    (set k | k in n.keyVals && Assigned(k, config)) + TargetsAll(n.sections, config)
  }

  function TargetsAll(ss: seq<ConfigDecorator>, config: map<string, Entry>): set<KeyChainedValue>
    reads FrameAll(ss)`section
    decreases ss, 0
  {
    set i, k | 0 <= i < |ss| && ss[i].name in config && config[ss[i].name].Sub?
                && k in Targets(ss[i], config[ss[i].name].entries) :: k
  }

  /** `update_from_dict`: subsections named in the dict first, then this
      section's own settings, each assigned through the value setter; the first
      error stops the load. */
  method UpdateFromDict(n: ConfigDecorator, config: map<string, Entry>) returns (r: Result<(), ConfigError>)
    modifies Frame(n)`config
    ensures r.Success? <==> Accepts(n, config)
    ensures forall k :: k in Frame(n) && old(allocated(k)) && k !in Targets(n, config) ==> k.config == old(k.config)
    ensures r.Success? ==>
      forall k :: k in n.keyVals && Assigned(k, config) ==> k.config == Some(k.Stored(EntryValue(config[k.name])).value)
    decreases n, 1
  {
    FrameAllocated(n);
    r := UpdateSections(n.sections, config);
    if r.Success? {
      r := UpdateSettings(n.keyVals, config);
    }
    forall k | k in Frame(n) && old(allocated(k)) && k !in Targets(n, config)
      ensures k.config == old(k.config)
    {
      assert k !in TargetsAll(n.sections, config);
      assert k in n.keyVals ==> !Assigned(k, config);
    }
  }

  /** The settings of a tree held in the heap are allocated. */
  lemma {:induction false} FrameAllocated(n: ConfigDecorator)
    ensures forall k :: k in Frame(n) ==> allocated(k)
    decreases n
  {
    forall k | k in Frame(n)
      ensures allocated(k)
    {
      if k !in n.keyVals {
        assert k in FrameAll(n.sections);
        var i :| 0 <= i < |n.sections| && k in Frame(n.sections[i]);
        FrameAllocated(n.sections[i]);
      }
    }
  }

  /** The pending settings of a tree held in the heap are allocated. */
  lemma {:induction false} CachesAllocated(n: ConfigDecorator)
    ensures forall k :: k in Caches(n) ==> allocated(k)
    decreases n
  {
    forall k | k in Caches(n)
      ensures allocated(k)
    {
      if k !in n.kvCache {
        assert k in CachesAll(n.sections);
        var i :| 0 <= i < |n.sections| && k in Caches(n.sections[i]);
        CachesAllocated(n.sections[i]);
      }
    }
  }

  lemma FrameAllHas(ss: seq<ConfigDecorator>, i: int)
    requires 0 <= i < |ss|
    ensures Frame(ss[i]) <= FrameAll(ss)
  {
  }

  lemma TargetsAllHas(ss: seq<ConfigDecorator>, i: int, config: map<string, Entry>)
    requires 0 <= i < |ss| && ss[i].name in config && config[ss[i].name].Sub?
    ensures Targets(ss[i], config[ss[i].name].entries) <= TargetsAll(ss, config)
  {
  }

  /** The subsection loop of `update_from_dict`. */
  method UpdateSections(ss: seq<ConfigDecorator>, config: map<string, Entry>) returns (r: Result<(), ConfigError>)
    modifies FrameAll(ss)`config
    ensures r.Success? <==> AcceptsAll(ss, config)
    ensures forall k :: k in FrameAll(ss) && old(allocated(k)) && k !in TargetsAll(ss, config) ==> k.config == old(k.config)
    decreases ss, 1
  {
    FrameAllAllocated(ss);
    var i := 0;
    ghost var touched: set<KeyChainedValue> := {};
    assert AcceptsAll(ss[..0], config);
    while i < |ss|
      invariant 0 <= i <= |ss|
      invariant AcceptsAll(ss[..i], config)
      invariant touched == TargetsAll(ss[..i], config)
      invariant forall k :: k in FrameAll(ss) && old(allocated(k)) && k !in touched ==> k.config == old(k.config)
    {
      var s := ss[i];
      FrameAllHas(ss, i);
      if s.name in config {
        var e := config[s.name];
        if e.Leaf? {
          SectionsSnoc(ss, i, config);
          SectionsPrefix(ss, i + 1, config);
          return Failure(NotADict(s.name));
        }
        ghost var inner := Targets(s, e.entries);
        r := UpdateSubsection(ss, i, config);
        SectionsSnoc(ss, i, config);
        touched := touched + inner;
        if r.Failure? {
          SectionsPrefix(ss, i + 1, config);
          return;
        }
        assert AcceptsAll(ss[..i + 1], config) && touched == TargetsAll(ss[..i + 1], config);
      } else {
        SectionsSnoc(ss, i, config);
        assert AcceptsAll(ss[..i + 1], config) && touched == TargetsAll(ss[..i + 1], config);
      }
      i := i + 1;
    }
    assert ss[..i] == ss;
    return Success(());
  }

  /** One subsection of that loop, named in the dict with a dict of its own:
      loaded recursively, leaving the sections before it as they were. */
  method UpdateSubsection(ss: seq<ConfigDecorator>, i: int, config: map<string, Entry>) returns (r: Result<(), ConfigError>)
    requires 0 <= i < |ss| && ss[i].name in config && config[ss[i].name].Sub?
    modifies FrameAll(ss)`config
    ensures r.Success? <==> Accepts(ss[i], config[ss[i].name].entries)
    ensures AcceptsAll(ss[..i], config) == old(AcceptsAll(ss[..i], config))
    ensures TargetsAll(ss[..i], config) == old(TargetsAll(ss[..i], config))
    ensures Targets(ss[i], config[ss[i].name].entries) == old(Targets(ss[i], config[ss[i].name].entries))
    ensures forall k :: k in FrameAll(ss) && old(allocated(k)) && k !in Targets(ss[i], config[ss[i].name].entries) ==>
      k.config == old(k.config)
    decreases ss, 0
  {
    FrameAllHas(ss, i);
    FrameAllAllocated(ss);
    FrameAllAllocated(ss[..i]);
    r := UpdateFromDict(ss[i], config[ss[i].name].entries);
  }

  lemma {:induction false} FrameAllAllocated(ss: seq<ConfigDecorator>)
    ensures forall k :: k in FrameAll(ss) ==> allocated(k)
  {
    forall k | k in FrameAll(ss)
      ensures allocated(k)
    {
      var i :| 0 <= i < |ss| && k in Frame(ss[i]);
      FrameAllocated(ss[i]);
    }
  }

  /** Acceptance and targets of a prefix of the subsections, one more
      subsection at a time. */
  lemma SectionsSnoc(ss: seq<ConfigDecorator>, i: int, config: map<string, Entry>)
    requires 0 <= i < |ss|
    ensures AcceptsAll(ss[..i + 1], config) <==>
      AcceptsAll(ss[..i], config) && (ss[i].name in config ==> config[ss[i].name].Sub? && Accepts(ss[i], config[ss[i].name].entries))
    ensures TargetsAll(ss[..i + 1], config) ==
      TargetsAll(ss[..i], config) + (if ss[i].name in config && config[ss[i].name].Sub? then Targets(ss[i], config[ss[i].name].entries) else {})
  {
    AcceptsAllSnoc(ss, i, config);
    TargetsAllSnoc(ss, i, config);
  }

  lemma AcceptsAllSnoc(ss: seq<ConfigDecorator>, i: int, config: map<string, Entry>)
    requires 0 <= i < |ss|
    ensures AcceptsAll(ss[..i + 1], config) <==>
      AcceptsAll(ss[..i], config) && (ss[i].name in config ==> config[ss[i].name].Sub? && Accepts(ss[i], config[ss[i].name].entries))
  {
    var p, q := ss[..i], ss[..i + 1];
    assert forall t :: 0 <= t < i ==> q[t] == p[t];
    assert q[i] == ss[i];
  }

  lemma TargetsAllSnoc(ss: seq<ConfigDecorator>, i: int, config: map<string, Entry>)
    requires 0 <= i < |ss|
    ensures TargetsAll(ss[..i + 1], config) ==
      TargetsAll(ss[..i], config) + (if ss[i].name in config && config[ss[i].name].Sub? then Targets(ss[i], config[ss[i].name].entries) else {})
  {
    var p, q := ss[..i], ss[..i + 1];
    assert forall t :: 0 <= t < i ==> q[t] == p[t];
    assert q[i] == ss[i];
    forall k | k in TargetsAll(q, config)
      ensures k in TargetsAll(p, config) + (if ss[i].name in config && config[ss[i].name].Sub? then Targets(ss[i], config[ss[i].name].entries) else {})
    {
      var t :| 0 <= t < |q| && q[t].name in config && config[q[t].name].Sub? && k in Targets(q[t], config[q[t].name].entries);
      if t < i {
        assert p[t] == q[t];
      }
    }
  }

  /** A subsection that fails makes the whole loop fail. */
  lemma SectionsPrefix(ss: seq<ConfigDecorator>, i: int, config: map<string, Entry>)
    requires 0 <= i <= |ss| && !AcceptsAll(ss[..i], config)
    ensures !AcceptsAll(ss, config)
  {
    var t :| 0 <= t < i && ss[..i][t].name in config && !(config[ss[..i][t].name].Sub? && Accepts(ss[..i][t], config[ss[..i][t].name].entries));
    assert ss[..i][t] == ss[t];
  }

  /** The settings loop of `update_from_dict`: ephemeral settings and names
      the dict lacks are skipped. */
  method UpdateSettings(kvs: seq<KeyChainedValue>, config: map<string, Entry>) returns (r: Result<(), ConfigError>)
    modifies kvs`config
    ensures r.Success? <==> forall k :: k in kvs && Assigned(k, config) ==> k.Stored(EntryValue(config[k.name])).Success?
    ensures forall k :: k in kvs && !Assigned(k, config) ==> k.config == old(k.config)
    ensures r.Success? ==> forall k :: k in kvs && Assigned(k, config) ==> k.config == Some(k.Stored(EntryValue(config[k.name])).value)
  {
    var j := 0;
    while j < |kvs|
      invariant 0 <= j <= |kvs|
      invariant forall t :: 0 <= t < j && Assigned(kvs[t], config) ==>
        kvs[t].Stored(EntryValue(config[kvs[t].name])).Success?
        && kvs[t].config == Some(kvs[t].Stored(EntryValue(config[kvs[t].name])).value)
      invariant forall k :: k in kvs && !Assigned(k, config) ==> k.config == old(k.config)
    {
      var k := kvs[j];
      if !k.Ephemeral() && k.name in config {
        var res := k.SetValue(EntryValue(config[k.name]));
        if res.Failure? {
          return Failure(res.error);
        }
      }
      j := j + 1;
    }
    return Success(());
  }

  /** `forget_config_values`: every setting of the tree drops the value read
      from the config file (forced, command-line and environment values stay). */
  method ForgetConfigValues(n: ConfigDecorator)
    modifies Frame(n)`config
    ensures forall k :: k in Frame(n) ==> k.config.None?
  {
    var ks := Walk(n);
    FrameAllocated(n);
    var i := 0;
    while i < |ks|
      invariant 0 <= i <= |ks|
      invariant forall t :: 0 <= t < i ==> ks[t].config.None?
    {
      WalkCoversFrame(n, ks[i]);
      forall t | 0 <= t < i
        ensures allocated(ks[t])
      {
        WalkCoversFrame(n, ks[t]);
      }
      ks[i].ForgetConfigValue();
      i := i + 1;
    }
    forall k | k in Frame(n)
      ensures k.config.None?
    {
      WalkCoversFrame(n, k);
      var t :| 0 <= t < |ks| && ks[t] == k;
    }
  }

  // ---- Dumping to a dict ----

  /** `choose_default_or_confval`: the value a setting contributes to the
      dump, if any. */
  function Choose(k: KeyChainedValue, f: Flags): (r: Option<Value>)
    reads k`section, k`config
    ensures !f.useDefaults && k.Persisted() ==> r == Some(k.config.value)
    ensures (f.useDefaults || (!k.Persisted() && !f.skipUnset)) && (!k.Hidden() || f.addHidden) ==> r == Some(k.Default())
    ensures r.None? <==>
      (k.Hidden() && !f.addHidden && (f.useDefaults || !k.Persisted())) || (!f.useDefaults && !k.Persisted() && f.skipUnset)
  {
    if (f.useDefaults || (!k.Persisted() && !f.skipUnset)) && (!k.Hidden() || f.addHidden) then Some(k.Default())
    else if !f.useDefaults && k.Persisted() then Some(k.config.value)
    else None
  }

  /** Reference definition of `download_to_dict`: the dict after the dump and
      the number of settings written. Subsections are dumped first, with the
      flags only when `forward` is set (the code as written does not forward
      them); a subsection entry the dump created but left empty is removed. */
  function Downloaded(n: ConfigDecorator, config: map<string, Entry>, f: Flags, forward: bool): Result<(map<string, Entry>, nat), ConfigError>
    reads Frame(n)
    decreases n, 1
  {
    var ck :- SectionsDownloaded(n.sections, config, if forward then f else NoFlags, forward);
    Success(SettingsDownloaded(n.keyVals, ck.0, ck.1, f))
  }

  function SectionsDownloaded(ss: seq<ConfigDecorator>, config: map<string, Entry>, f: Flags, forward: bool): Result<(map<string, Entry>, nat), ConfigError>
    reads FrameAll(ss)
    decreases ss, 0
  {
    if ss == [] then Success((config, 0))
    else
      var init, s := ss[..|ss| - 1], ss[|ss| - 1];
      assert FrameAll(init) <= FrameAll(ss) by {
        forall k | k in FrameAll(init) ensures k in FrameAll(ss) {
          var i :| 0 <= i < |init| && k in Frame(init[i]);
          assert ss[i] == init[i];
        }
      }
      var ck :- SectionsDownloaded(init, config, f, forward);
      assert Frame(s) <= FrameAll(ss) by {
        forall k | k in Frame(s) ensures k in FrameAll(ss) { assert k in Frame(ss[|ss| - 1]); }
      }
      SectionDownloaded(s, ck.0, ck.1, f, forward)
  }

  /** One step of the subsection loop: dump section `s` into its entry of
      `c` (created if missing, removed again if the dump wrote nothing into
      a new one). */
  function SectionDownloaded(s: ConfigDecorator, c: map<string, Entry>, count: nat, f: Flags, forward: bool): Result<(map<string, Entry>, nat), ConfigError>
    reads Frame(s)
    decreases s, 2
  {
    var existed := s.name in c;
    if existed && c[s.name].Leaf? then Failure(NotADict(s.name))
    else
      var sub := if existed then c[s.name].entries else map[];
      var dm :- Downloaded(s, sub, f, forward);
      if dm.1 == 0 && !existed then Success((c, count))
      else Success((c[s.name := Sub(dm.0)], count + dm.1))
  }

  function SettingsDownloaded(kvs: seq<KeyChainedValue>, config: map<string, Entry>, count: nat, f: Flags): (map<string, Entry>, nat)
    reads kvs
  {
    if kvs == [] then (config, count)
    else
      var ck := SettingsDownloaded(kvs[..|kvs| - 1], config, count, f);
      var k := kvs[|kvs| - 1];
      if k.Ephemeral() then ck
      else
        match Choose(k, f)
        case None => ck
        case Some(v) => (ck.0[k.name := Leaf(v)], ck.1 + 1)
  }

  /** The settings step writes exactly the chosen values: the last setting
      with a name decides that name's entry, and names no setting has keep
      their entry. */
  lemma {:induction false} SettingsDownloadedWrites(kvs: seq<KeyChainedValue>, config: map<string, Entry>, count: nat, f: Flags, name: string)
    ensures var out := SettingsDownloaded(kvs, config, count, f).0;
      && (LastWith(kvs, SettingKey, name).None? ==> (name in out <==> name in config) && (name in config ==> out[name] == config[name]))
      && (var k := LastWith(kvs, SettingKey, name);
          k.Some? && !k.value.Ephemeral() && Choose(k.value, f).Some? ==> name in out && out[name] == Leaf(Choose(k.value, f).value))
    ensures SettingsDownloaded(kvs, config, count, f).1 >= count
  {
    if kvs != [] {
      SettingsDownloadedWrites(kvs[..|kvs| - 1], config, count, f, name);
    }
  }

  /** `download_to_dict`, recursing through the subsections. */
  method DownloadInto(n: ConfigDecorator, config: map<string, Entry>, f: Flags, forward: bool) returns (r: Result<(map<string, Entry>, nat), ConfigError>)
    ensures r == Downloaded(n, config, f, forward)
    decreases n, 1
  {
    FrameAllocated(n);
    var sections := DownloadSections(n.sections, config, if forward then f else NoFlags, forward);
    if sections.Failure? {
      return Failure(sections.error);
    }
    var out := DownloadSettings(n.keyVals, sections.value.0, sections.value.1, f);
    return Success(out);
  }

  /** The subsection loop of `download_to_dict`. */
  method DownloadSections(ss: seq<ConfigDecorator>, config: map<string, Entry>, f: Flags, forward: bool) returns (r: Result<(map<string, Entry>, nat), ConfigError>)
    ensures r == SectionsDownloaded(ss, config, f, forward)
    decreases ss, 0
  {
    var c := config;
    var count: nat := 0;
    var i := 0;
    while i < |ss|
      invariant 0 <= i <= |ss|
      invariant SectionsDownloaded(ss[..i], config, f, forward) == Success((c, count))
    {
      FrameAllAllocated(ss[..i]);
      var step := DownloadSection(ss[i], c, count, f, forward);
      SectionsDownloadedSnoc(ss, i, config, f, forward);
      if step.Failure? {
        SectionsFailurePersists(ss, i + 1, config, f, forward);
        return step;
      }
      c, count := step.value.0, step.value.1;
      i := i + 1;
    }
    assert ss[..i] == ss;
    return Success((c, count));
  }

  /** One pass of the subsection loop: section `s` is dumped into its entry
      of `c`, which is created when missing and dropped again when the dump
      wrote nothing into it. */
  method DownloadSection(s: ConfigDecorator, c: map<string, Entry>, count: nat, f: Flags, forward: bool) returns (r: Result<(map<string, Entry>, nat), ConfigError>)
    ensures r == SectionDownloaded(s, c, count, f, forward)
    decreases s, 2
  {
    var existed := s.name in c;
    if existed && c[s.name].Leaf? {
      return Failure(NotADict(s.name));
    }
    var sub := if existed then c[s.name].entries else map[];
    var dm := DownloadInto(s, sub, f, forward);
    if dm.Failure? {
      return Failure(dm.error);
    }
    if dm.value.1 == 0 && !existed {
      return Success((c, count));
    }
    return Success((c[s.name := Sub(dm.value.0)], count + dm.value.1));
  }

  /** The settings loop of `download_to_dict`: each non-ephemeral setting
      writes the value `Choose` picks, counting it. */
  method DownloadSettings(kvs: seq<KeyChainedValue>, c: map<string, Entry>, count: nat, f: Flags) returns (out: (map<string, Entry>, nat))
    ensures out == SettingsDownloaded(kvs, c, count, f)
  {
    out := (c, count);
    var t := 0;
    while t < |kvs|
      invariant 0 <= t <= |kvs|
      invariant out == SettingsDownloaded(kvs[..t], c, count, f)
    {
      var k := kvs[t];
      assert kvs[..t + 1][..t] == kvs[..t];
      if !k.Ephemeral() {
        var v := Choose(k, f);
        if v.Some? {
          out := (out.0[k.name := Leaf(v.value)], out.1 + 1);
        }
      }
      t := t + 1;
    }
    assert kvs[..t] == kvs;
  }

  /** One more subsection: the dump of a prefix extends by one step. */
  lemma SectionsDownloadedSnoc(ss: seq<ConfigDecorator>, i: int, config: map<string, Entry>, f: Flags, forward: bool)
    requires 0 <= i < |ss|
    ensures SectionsDownloaded(ss[..i + 1], config, f, forward) ==
      match SectionsDownloaded(ss[..i], config, f, forward)
      case Failure(e) => Failure(e)
      case Success(ck) => SectionDownloaded(ss[i], ck.0, ck.1, f, forward)
  {
    assert ss[..i + 1][..i] == ss[..i];
  }

  /** Once a prefix of the subsections fails, the whole sequence fails with
      the same error. */
  lemma {:induction false} SectionsFailurePersists(ss: seq<ConfigDecorator>, i: nat, config: map<string, Entry>, f: Flags, forward: bool)
    requires i <= |ss| && SectionsDownloaded(ss[..i], config, f, forward).Failure?
    ensures SectionsDownloaded(ss, config, f, forward) == SectionsDownloaded(ss[..i], config, f, forward)
    decreases |ss| - i
  {
    if i < |ss| {
      assert ss[..i + 1][..i] == ss[..i];
      SectionsFailurePersists(ss, i + 1, config, f, forward);
    } else {
      assert ss[..i] == ss;
    }
  }

  /** `download_to_dict(config, skip_unset, use_defaults, add_hidden)` as the
      code is written: the subsections are dumped with the default flags. The
      result is the updated dict and the number of settings written. */
  method DownloadToDictAsWritten(n: ConfigDecorator, config: map<string, Entry>, f: Flags)
      returns (r: Result<(map<string, Entry>, nat), ConfigError>)
    ensures r == Downloaded(n, config, f, false)
  {
    r := DownloadInto(n, config, f, false);
  }

  /** `download_to_dict` as evidently intended: the flags reach every
      subsection. */
  method DownloadToDict(n: ConfigDecorator, config: map<string, Entry>, f: Flags)
      returns (r: Result<(map<string, Entry>, nat), ConfigError>)
    ensures r == Downloaded(n, config, f, true)
  {
    r := DownloadInto(n, config, f, true);
  }

  /** With `skip_unset` (and without `use_defaults`), a tree none of whose
      settings was read from the config file dumps nothing into an empty dict:
      every setting is skipped and every section entry the dump creates is
      removed again, provided the flags reach the subsections. */
  lemma {:induction false} SkipUnsetWritesNothing(n: ConfigDecorator, f: Flags)
    requires f.skipUnset && !f.useDefaults
    requires forall k :: k in Frame(n) ==> !k.Persisted()
    ensures Downloaded(n, map[], f, true) == Success((map[], 0))
    decreases n, 1
  {
    SectionsSkipUnset(n.sections, f);
    SettingsSkipUnset(n.keyVals, map[], 0, f);
  }

  lemma {:induction false} SectionsSkipUnset(ss: seq<ConfigDecorator>, f: Flags)
    requires f.skipUnset && !f.useDefaults
    requires forall k :: k in FrameAll(ss) ==> !k.Persisted()
    ensures SectionsDownloaded(ss, map[], f, true) == Success((map[], 0))
    decreases ss, 0
  {
    if ss != [] {
      var init, s := ss[..|ss| - 1], ss[|ss| - 1];
      forall k | k in FrameAll(init)
        ensures !k.Persisted()
      {
        var i :| 0 <= i < |init| && k in Frame(init[i]);
        assert ss[i] == init[i];
      }
      forall k | k in Frame(s)
        ensures !k.Persisted()
      {
        assert k in Frame(ss[|ss| - 1]);
      }
      SectionsSkipUnset(init, f);
      SkipUnsetWritesNothing(s, f);
    }
  }

  lemma {:induction false} SettingsSkipUnset(kvs: seq<KeyChainedValue>, config: map<string, Entry>, count: nat, f: Flags)
    requires f.skipUnset && !f.useDefaults
    requires forall i :: 0 <= i < |kvs| ==> !kvs[i].Persisted()
    ensures SettingsDownloaded(kvs, config, count, f) == (config, count)
  {
    if kvs != [] {
      SettingsSkipUnset(kvs[..|kvs| - 1], config, count, f);
    }
  }

  /** As written, a subsection is dumped without the caller's flags: with
      `skip_unset`, an unset visible setting one level down is still written
      with its default, where passing the flags on writes nothing. */
  lemma FlagsNotForwarded(k: KeyChainedValue, f: Flags)
    requires f.skipUnset && !f.useDefaults
    requires !k.Persisted() && !k.Hidden() && !k.Ephemeral()
    ensures var n := ConfigDecorator("root", [], [ConfigDecorator("s", [k], [], [])], []);
      && Downloaded(n, map[], f, false) == Success((map["s" := Sub(map[k.name := Leaf(k.Default())])], 1))
      && Downloaded(n, map[], f, true) == Success((map[], 0))
  {
    var s := ConfigDecorator("s", [k], [], []);
    var n := ConfigDecorator("root", [], [s], []);
    assert [k][..0] == [];
    assert SettingsDownloaded([k], map[], 0, NoFlags) == (map[k.name := Leaf(k.Default())], 1);
    assert Downloaded(s, map[], NoFlags, false) == Success((map[k.name := Leaf(k.Default())], 1));
    assert [s][..0] == [];
    assert SectionsDownloaded([s], map[], NoFlags, false) == Success((map["s" := Sub(map[k.name := Leaf(k.Default())])], 1));
    assert Frame(s) == {k};
    assert FrameAll([s]) == Frame(s);
    SkipUnsetWritesNothing(n, f);
  }

  // ---- Adopting the pending settings ----

  /** `_pull_kv_cache` on values: the child takes over the parent's pending
      settings (a later one wins over an earlier one with the same name), the
      parent's cache is emptied and the child is registered under its name. */
  function Pulled(parent: ConfigDecorator, child: ConfigDecorator): (r: (ConfigDecorator, ConfigDecorator))
  {
    var c := child.(keyVals := UpdateAll(child.keyVals, SettingKey, parent.kvCache));
    (parent.(kvCache := [], sections := Put(parent.sections, SectionKey, c)), c)
  }

  /** After the pull, the child is found under its name, every pending setting
      is found in the child under its own name, and nothing is pending at the
      parent's level. */
  lemma PulledFindsSettings(parent: ConfigDecorator, child: ConfigDecorator, k: KeyChainedValue)
    requires LastWith(parent.kvCache, SettingKey, k.name) == Some(k)
    ensures var (p, c) := Pulled(parent, child);
      && Get(p, [child.name]) == Success(c)
      && Lookup(c.keyVals, SettingKey, k.name) == Some(k)
      && p.kvCache == [] && p.keyVals == parent.keyVals
  {
    var (p, c) := Pulled(parent, child);
    assert [child.name][1..] == [];
  }

  /** A setting declared against a section (whose pending settings have
      distinct names, as a dict's keys do) is found under its name in the
      subsection that next claims the pending settings. */
  lemma DeclaredThenClaimed(parent: ConfigDecorator, child: ConfigDecorator, k: KeyChainedValue)
    requires UniqueKeys(parent.kvCache, SettingKey)
    ensures var declared := parent.(kvCache := Put(parent.kvCache, SettingKey, k));
      Lookup(Pulled(declared, child).1.keyVals, SettingKey, k.name) == Some(k)
  {
    var declared := parent.(kvCache := Put(parent.kvCache, SettingKey, k));
    PutUnique(parent.kvCache, SettingKey, k);
    UniqueLastIsFirst(declared.kvCache, SettingKey, k.name);
    PulledFindsSettings(declared, child, k);
  }

  /** A name the parent had no pending setting for keeps the child's own
      setting. */
  lemma PulledKeepsOwn(parent: ConfigDecorator, child: ConfigDecorator, name: string)
    requires LastWith(parent.kvCache, SettingKey, name).None?
    ensures Lookup(Pulled(parent, child).1.keyVals, SettingKey, name) == Lookup(child.keyVals, SettingKey, name)
  {
  }

  /** Pulling into a section with nothing pending of its own adds no pending
      setting to the parent's subtree. */
  lemma PulledCaches(parent: ConfigDecorator, child: ConfigDecorator)
    requires Caches(child) == {}
    ensures Caches(Pulled(parent, child).0) <= Caches(parent)
  {
    var (p, c) := Pulled(parent, child);
    assert Caches(c) == {} by {
      assert CachesAll(c.sections) == CachesAll(child.sections);
    }
    forall k | k in Caches(p)
      ensures k in Caches(parent)
    {
      assert k in CachesAll(p.sections);
      var i :| 0 <= i < |p.sections| && k in Caches(p.sections[i]);
      assert p.sections[i] in p.sections;
      var j :| 0 <= j < |parent.sections| && parent.sections[j] == p.sections[i];
      assert k in Caches(parent.sections[j]);
    }
  }

  /** `_pull_kv_cache`: re-points every pending setting of the parent at the
      child, whose path is `childPath`, then moves them over. */
  method PullKvCache(parent: ConfigDecorator, child: ConfigDecorator, childPath: seq<string>)
      returns (p: ConfigDecorator, c: ConfigDecorator)
    modifies parent.kvCache`section
    ensures (p, c) == Pulled(parent, child)
    ensures forall k :: k in parent.kvCache ==> k.section == Some(childPath)
  {
    var i := 0;
    while i < |parent.kvCache|
      invariant 0 <= i <= |parent.kvCache|
      invariant forall t :: 0 <= t < i ==> parent.kvCache[t].section == Some(childPath)
    {
      parent.kvCache[i].section := Some(childPath);
      i := i + 1;
    }
    p, c := Pulled(parent, child).0, Pulled(parent, child).1;
  }

  // ---- setdefault ----

  /** What `setdefault` hands back: the setting that already existed, or the
      value it registered a new setting for. */
  datatype Outcome = Existing(setting: KeyChainedValue) | Registered(value: Value)

  /** The names `setdefault` descends through and registers: every argument
      split on '.', in order. */
  function SplitNames(names: seq<string>): (r: seq<string>)
    ensures |r| >= |names|
    ensures forall i :: 0 <= i < |r| ==> '.' !in r[i]
  {
    if names == [] then []
    else
      var init := SplitNames(names[..|names| - 1]);
      var last := PyText.SplitOn(names[|names| - 1], '.');
      assert forall i :: |init| <= i < |init + last| ==> (init + last)[i] == last[i - |init|];
      init + last
  }

  /** Names without dots are taken as they are. */
  lemma {:induction false} SplitNamesUndotted(names: seq<string>)
    requires forall i :: 0 <= i < |names| ==> '.' !in names[i]
    ensures SplitNames(names) == names
  {
    if names != [] {
      SplitNamesUndotted(names[..|names| - 1]);
      PyText.SplitOnNoSep(names[|names| - 1], '.');
      assert names[..|names| - 1] + [names[|names| - 1]] == names;
    }
  }

  /** The tree with setting `k` registered in the section at `sections`,
      under its name. */
  function WithSetting(n: ConfigDecorator, sections: seq<string>, k: KeyChainedValue): (r: ConfigDecorator)
    requires Get(n, sections).Success?
  {
    var s := Get(n, sections).value;
    Replace(n, sections, s.(keyVals := Put(s.keyVals, SettingKey, k)))
  }

  /** The sections a `setdefault` call descends through: all split names
      but the last. */
  function SectionNames(names: seq<string>): seq<string>
    requires names != []
  {
    var parts := SplitNames(names);
    parts[..|parts| - 1]
  }

  /** The setting a `setdefault` call registers: the last split name. */
  function SettingName(names: seq<string>): string
    requires names != []
  {
    var parts := SplitNames(names);
    parts[|parts| - 1]
  }

  /** The single argument `a.b` names section `a` and setting `b`. */
  lemma SplitDotted(a: string, b: string)
    requires '.' !in a && '.' !in b
    ensures SectionNames([a + "." + b]) == [a] && SettingName([a + "." + b]) == b
  {
    SplitOnConcat(a, b);
    var names := [a + "." + b];
    assert names[..0] == [];
    assert SplitNames(names) == [] + PyText.SplitOn(a + "." + b, '.');
  }

  /** As written, `setdefault('a.b', v)` on a tree whose section `a` has no
      `b` puts the new setting among the root's own settings, where the dotted
      name does not reach it: `a.b` is still unrecognized afterwards, so the
      next call registers yet another setting. */
  lemma RootRegistrationUnreachable(n: ConfigDecorator, a: string, k: KeyChainedValue)
    requires '.' !in a && '.' !in k.name
    requires Get(n, [a]).Success?
    requires Lookup(Get(n, [a]).value.keyVals, SettingKey, k.name).None?
    requires Lookup(Get(n, [a]).value.sections, SectionKey, k.name).None?
    ensures FindOneObject(n.(keyVals := Put(n.keyVals, SettingKey, k)), a + "." + k.name)
      == Failure(Unrecognized(a + "." + k.name))
  {
    var n' := n.(keyVals := Put(n.keyVals, SettingKey, k));
    DottedIsExact(n', a, k.name);
    assert [a, k.name][..1] == [a];
    assert Get(n', [a]) == Get(n, [a]);
  }

  /** Registered in the section the dotted name descends to, the new setting
      is what looking up that dotted name finds. */
  lemma SectionRegistrationFound(n: ConfigDecorator, a: string, k: KeyChainedValue)
    requires '.' !in a && '.' !in k.name
    requires Get(n, [a]).Success?
    requires Lookup(Get(n, [a]).value.sections, SectionKey, k.name).None?
    ensures FindOneObject(WithSetting(n, [a], k), a + "." + k.name) == Success(FoundSetting(k))
  {
    var s := Get(n, [a]).value;
    var s' := s.(keyVals := Put(s.keyVals, SettingKey, k));
    var n' := WithSetting(n, [a], k);
    DottedIsExact(n', a, k.name);
    assert [a, k.name][..1] == [a];
    assert Exact(s', k.name, false) == [FoundSetting(k)];
  }

  /** The section the `section` decorator hands the pending settings to: the
      existing subsection when it is named by a string (a class is never a key
      of the subsection dict), otherwise a new, empty one. */
  function Claimant(parent: ConfigDecorator, arg: SectionArg): (r: ConfigDecorator)
    ensures r.name == arg.SectionName()
    ensures arg.ByName? && Lookup(parent.sections, SectionKey, arg.name).Some? ==>
      r == Lookup(parent.sections, SectionKey, arg.name).value
    ensures arg.ByClass? || Lookup(parent.sections, SectionKey, arg.name).None? ==>
      r == ConfigDecorator(arg.SectionName(), [], [], [])
  {
    var existing := if arg.ByName? then Lookup(parent.sections, SectionKey, arg.name) else None;
    if existing.Some? then existing.value else ConfigDecorator(arg.SectionName(), [], [], [])
  }

  /** `_getsection` on values: the tree after making sure the section at
      `path` has a subsection `name`; a missing one is created empty and
      takes over that section's pending settings. */
  function DescendStep(n: ConfigDecorator, path: seq<string>, name: string): (r: ConfigDecorator)
    requires Get(n, path).Success?
    ensures Get(r, path + [name]).Success?
    ensures r.name == n.name
  {
    var parent := Get(n, path).value;
    if Lookup(parent.sections, SectionKey, name).Some? then
      GetSnoc(n, path, name);
      n
    else
      var r := Replace(n, path, Pulled(parent, ConfigDecorator(name, [], [], [])).0);
      GetSnoc(r, path, name);
      r
  }

  /** The tree after descending through the first `i` names of `sections`,
      one `DescendStep` per name. */
  function DescendedUpTo(n: ConfigDecorator, sections: seq<string>, i: nat): (r: ConfigDecorator)
    requires i <= |sections|
    ensures Get(r, sections[..i]).Success?
    ensures r.name == n.name
    decreases i
  {
    if i == 0 then n
    else
      var before := DescendedUpTo(n, sections, i - 1);
      assert sections[..i] == sections[..i - 1] + [sections[i - 1]];
      DescendStep(before, sections[..i - 1], sections[i - 1])
  }

  /** The tree after descending through all of `sections`. */
  function Descended(n: ConfigDecorator, sections: seq<string>): (r: ConfigDecorator)
    ensures Get(r, sections).Success?
    ensures r.name == n.name
  {
    assert sections[..|sections|] == sections;
    DescendedUpTo(n, sections, |sections|)
  }

  /** Along a path that already exists, the descent changes nothing. */
  lemma {:induction false} DescendedExisting(n: ConfigDecorator, sections: seq<string>, i: nat)
    requires Get(n, sections).Success? && i <= |sections|
    ensures DescendedUpTo(n, sections, i) == n
    decreases i
  {
    if i > 0 {
      DescendedExisting(n, sections, i - 1);
      PathStepExists(n, sections, i - 1);
      assert DescendedUpTo(n, sections, i) == DescendStep(n, sections[..i - 1], sections[i - 1]);
    }
  }

  /** The holder of a configuration tree: the root `ConfigDecorator`, whose
      subsections and pending settings the operations below rearrange. */
  class Config {
    var root: ConfigDecorator

    constructor(name: string)
      ensures root == ConfigDecorator(name, [], [], [])
    {
      root := ConfigDecorator(name, [], [], []);
    }

    /** `_getsection`: the subsection `name` of the section at `path`, created
        when missing. A new section is built with the parent given, so it pulls
        the parent's pending settings. */
    method GetSection(path: seq<string>, name: string)
      requires Get(root, path).Success?
      modifies this, Get(root, path).value.kvCache`section
      ensures Get(root, path + [name]).Success?
      ensures Lookup(old(Get(root, path).value.sections), SectionKey, name).Some? ==> root == old(root)
      ensures Lookup(old(Get(root, path).value.sections), SectionKey, name).None? ==>
        root == Replace(old(root), path, Pulled(old(Get(root, path).value), ConfigDecorator(name, [], [], [])).0)
        && forall k :: k in old(Get(root, path).value.kvCache) ==> k.section == Some(path + [name])
      ensures root.name == old(root.name)
      ensures Caches(root) <= old(Caches(root))
    {
      var parent := Get(root, path).value;
      if Lookup(parent.sections, SectionKey, name).Some? {
        GetSnoc(root, path, name);
        return;
      }
      var empty := ConfigDecorator(name, [], [], []);
      var p, c := PullKvCache(parent, empty, path + [name]);
      assert Caches(empty) == {};
      PulledCaches(parent, empty);
      ReplaceCaches(root, path, p);
      root := Replace(root, path, p);
      GetSnoc(root, path, name);
      if path == [] {
        assert root == p;
      }
    }

    /** `section(name_or_class, parent=...)`, the section decorator run
        against the section at `path`: the claimant takes over the pending
        settings declared there, which now name it as their owner, and is
        registered under its name. */
    method Section(path: seq<string>, arg: SectionArg)
      requires Get(root, path).Success?
      modifies this, Get(root, path).value.kvCache`section
      ensures var parent := old(Get(root, path).value);
        root == Replace(old(root), path, Pulled(parent, Claimant(parent, arg)).0)
      ensures var parent := old(Get(root, path).value);
        Get(root, path + [arg.SectionName()]) == Success(Pulled(parent, Claimant(parent, arg)).1)
      ensures forall k :: k in old(Get(root, path).value.kvCache) ==> k.section == Some(path + [arg.SectionName()])
      ensures root.name == old(root.name)
    {
      var parent := Get(root, path).value;
      var child := Claimant(parent, arg);
      var p, c := PullKvCache(parent, child, path + [arg.SectionName()]);
      root := Replace(root, path, p);
      GetSnoc(root, path, arg.SectionName());
      if path == [] {
        assert root == p;
      }
    }

    /** `setting(...)`, the setting decorator run against the section at
        `path`: the setting is built without an owner and waits among that
        section's pending settings, under its name, for the next subsection
        declared there to claim it. */
    method AddSetting(path: seq<string>, name: string, defaultF: Option<seq<string>> -> Value, valueType: Option<Caster>,
                      choices: seq<Value>, doc: string, ephemeral: Flag, hidden: Flag, validate: Option<Value -> Verdict>)
        returns (r: Result<KeyChainedValue, ConfigError>)
      requires Get(root, path).Success?
      modifies this
      ensures r.Failure? <==> DeduceValueType(valueType, ephemeral, name, None, defaultF).Failure?
      ensures r.Failure? ==> root == old(root)
      ensures r.Success? ==> fresh(r.value) && r.value.name == name && r.value.section.None? && r.value.doc == doc
      ensures r.Success? ==> var parent := old(Get(root, path).value);
        root == Replace(old(root), path, parent.(kvCache := Put(parent.kvCache, SettingKey, r.value)))
    {
      var parent := Get(root, path).value;
      r := KeyChainedValue.Create(None, name, defaultF, valueType, choices, doc, ephemeral, hidden, validate);
      if r.Success? {
        var declared := parent.(kvCache := Put(parent.kvCache, SettingKey, r.value));
        assert declared.name == parent.name;
        root := Replace(root, path, declared);
      }
    }

    /** The dotted arguments split on '.', as `_split_args_on_dot_sep` builds
        them. */
    static method SplitArgs(names: seq<string>) returns (parts: seq<string>)
      ensures parts == SplitNames(names)
    {
      parts := [];
      var i := 0;
      while i < |names|
        invariant 0 <= i <= |names|
        invariant parts == SplitNames(names[..i])
      {
        assert names[..i + 1][..i] == names[..i];
        parts := parts + PyText.SplitOn(names[i], '.');
        i := i + 1;
      }
      assert names[..i] == names;
    }

    /** One step of the descent: the section `sections[i]` below the one
        `sections[..i]` leads to, created when missing. */
    method DescendOne(sections: seq<string>, i: nat)
      requires i < |sections| && Get(root, sections[..i]).Success?
      modifies this, Caches(root)`section
      ensures root == DescendStep(old(root), sections[..i], sections[i])
      ensures Get(root, sections[..i + 1]).Success?
      ensures old(Get(root, sections)).Success? ==> root == old(root)
      ensures root.name == old(root.name)
      ensures Caches(root) <= old(Caches(root))
    {
      if Get(root, sections).Success? {
        PathStepExists(root, sections, i);
      }
      GetCaches(root, sections[..i]);
      ghost var pending := Get(root, sections[..i]).value.kvCache;
      assert forall k :: k in pending ==> k in Caches(Get(root, sections[..i]).value);
      GetSection(sections[..i], sections[i]);
      assert sections[..i + 1] == sections[..i] + [sections[i]];
    }

    /** `_setsetting`'s descent: the tree becomes `Descended`, in which every
        section named on the way exists, created where missing; when all of
        them were there already, nothing changes. */
    method Descend(sections: seq<string>)
      modifies this, Caches(root)`section
      ensures root == Descended(old(root), sections)
      ensures Get(root, sections).Success?
      ensures old(Get(root, sections)).Success? ==> root == old(root)
      ensures root.name == old(root.name)
      ensures Caches(root) <= old(Caches(root))
    {
      var i := 0;
      while i < |sections|
        invariant 0 <= i <= |sections|
        invariant root == DescendedUpTo(old(root), sections, i)
        invariant Get(root, sections[..i]).Success?
        invariant old(Get(root, sections)).Success? ==> root == old(root)
        invariant root.name == old(root.name)
        invariant Caches(root) <= old(Caches(root))
      {
        DescendOne(sections, i);
        i := i + 1;
      }
      assert sections[..i] == sections;
    }

    /** `_setsetting` as the code is written: after the descent through
        `sections` (creating what is missing), a setting of that name already
        there is handed back; otherwise a new one is built, owned by the root,
        and registered among the root's own settings, whatever section the
        descent reached. */
    method SetSettingAsWritten(settingName: string, value: Value, sections: seq<string>) returns (r: Result<Outcome, ConfigError>)
      modifies this, Caches(root)`section
      ensures Get(root, sections).Success?
      ensures old(Get(root, sections)).Success? ==>
        var before := old(Lookup(Get(root, sections).value.keyVals, SettingKey, settingName));
        && (before.Some? ==> root == old(root) && r == Success(Existing(before.value)))
        && (before.None? ==> r.Failure? || r.value.Registered?)
      ensures r.Success? && r.value.Existing? ==>
        Lookup(Get(root, sections).value.keyVals, SettingKey, settingName) == Some(r.value.setting)
      ensures r.Success? && r.value.Registered? ==>
        var k := Lookup(root.keyVals, SettingKey, settingName);
        r.value.value == value && k.Some? && fresh(k.value) && k.value.section == Some([]) && k.value.Default() == value
      ensures r.Failure? ==> value.VOther? && r.error == NoDefaultType
      ensures var d := Descended(old(root), sections);
        var before := Lookup(Get(d, sections).value.keyVals, SettingKey, settingName);
        && (before.Some? ==> root == d && r == Success(Existing(before.value)))
        && (before.None? && r.Failure? ==> root == d)
        && (before.None? && r.Success? ==>
              && r.value.Registered?
              && var k := Lookup(root.keyVals, SettingKey, settingName);
                 k.Some? && root == d.(keyVals := Put(d.keyVals, SettingKey, k.value)))
    {
      Descend(sections);
      var owner := Get(root, sections).value;
      var existing := Lookup(owner.keyVals, SettingKey, settingName);
      if existing.Some? {
        return Success(Existing(existing.value));
      }
      var created := KeyChainedValue.Create(Some([]), settingName, _ => value, None, [], "Created by `setdefault`",
                                            Fixed(false), Fixed(false), None);
      if created.Failure? {
        return Failure(created.error);
      }
      root := root.(keyVals := Put(root.keyVals, SettingKey, created.value));
      return Success(Registered(value));
    }

    /** `_setsetting` as evidently intended: the new setting is owned by, and
        registered in, the section the descent reached. */
    method SetSetting(settingName: string, value: Value, sections: seq<string>) returns (r: Result<Outcome, ConfigError>)
      modifies this, Caches(root)`section
      ensures Get(root, sections).Success?
      ensures old(Get(root, sections)).Success? ==>
        var before := old(Lookup(Get(root, sections).value.keyVals, SettingKey, settingName));
        && (before.Some? ==> root == old(root) && r == Success(Existing(before.value)))
        && (before.None? ==> r.Failure? || r.value.Registered?)
      ensures r.Success? && r.value.Existing? ==>
        Lookup(Get(root, sections).value.keyVals, SettingKey, settingName) == Some(r.value.setting)
      ensures r.Success? && r.value.Registered? ==>
        var k := Lookup(Get(root, sections).value.keyVals, SettingKey, settingName);
        r.value.value == value && k.Some? && fresh(k.value) && k.value.section == Some(sections) && k.value.Default() == value
      ensures r.Failure? ==> value.VOther? && r.error == NoDefaultType
      ensures var d := Descended(old(root), sections);
        var s := Get(d, sections).value;
        var before := Lookup(s.keyVals, SettingKey, settingName);
        && (before.Some? ==> root == d && r == Success(Existing(before.value)))
        && (before.None? && r.Failure? ==> root == d)
        && (before.None? && r.Success? ==>
              && r.value.Registered?
              && var k := Lookup(Get(root, sections).value.keyVals, SettingKey, settingName);
                 k.Some? && root == WithSetting(d, sections, k.value))
    {
      CachesAllocated(root);
      // The candidate setting is built before the descent (nothing observes
      // the order) and only used when the section has no setting of that name.
      var created := KeyChainedValue.Create(Some(sections), settingName, _ => value, None, [], "Created by `setdefault`",
                                            Fixed(false), Fixed(false), None);
      assert created.Success? ==> created.value !in Caches(old(root));
      Descend(sections);
      var owner := Get(root, sections).value;
      var existing := Lookup(owner.keyVals, SettingKey, settingName);
      if existing.Some? {
        return Success(Existing(existing.value));
      }
      if created.Failure? {
        return Failure(created.error);
      }
      root := Replace(root, sections, owner.(keyVals := Put(owner.keyVals, SettingKey, created.value)));
      return Success(Registered(value));
    }

    /** `setdefault(*names, value)` as the code is written: too few arguments
        trip over the undefined `lens`; otherwise the names, split on '.',
        give the sections to descend through and, last, the setting. Nothing
        is returned. A setting already in place is left alone; a new one,
        below an existing section, is registered among the root's own
        settings, not in that section. */
    method SetdefaultAsWritten(names: seq<string>, value: Value) returns (r: Result<(), ConfigError>)
      modifies this, Caches(root)`section
      ensures names == [] ==> r == Failure(NameNotDefined("lens"))
      ensures names != [] ==> Get(root, SectionNames(names)).Success?
      ensures names != [] && r.Failure? ==> value.VOther? && r.error == NoDefaultType
      ensures names != [] ==>
        var d := Descended(old(root), SectionNames(names));
        var before := Lookup(Get(d, SectionNames(names)).value.keyVals, SettingKey, SettingName(names));
        && (before.Some? ==> r == Success(()))
        && (before.Some? || r.Failure? ==> root == d)
      ensures names != [] ==>
        var d := Descended(old(root), SectionNames(names));
        var before := Lookup(Get(d, SectionNames(names)).value.keyVals, SettingKey, SettingName(names));
        var k := Lookup(root.keyVals, SettingKey, SettingName(names));
        before.None? && r.Success? ==>
          && k.Some? && root == d.(keyVals := Put(d.keyVals, SettingKey, k.value))
          && fresh(k.value) && k.value.section == Some([]) && k.value.Default() == value
      ensures names != [] && old(Get(root, SectionNames(names))).Success? ==>
        old(Lookup(Get(root, SectionNames(names)).value.keyVals, SettingKey, SettingName(names))).Some? ==>
          r == Success(()) && root == old(root)
    {
      if names == [] {
        return Failure(NameNotDefined("lens"));
      }
      var parts := SplitArgs(names);
      var sections, name := parts[..|parts| - 1], parts[|parts| - 1];
      assert sections == SectionNames(names) && name == SettingName(names);
      var outcome := SetSettingAsWritten(name, value, sections);
      if outcome.Failure? {
        return Failure(outcome.error);
      }
      return Success(());
    }

    /** `setdefault` as evidently intended: too few arguments raise the
        TypeError the message describes; afterwards the setting is found in
        the section reached. A setting already in place is left alone; a new
        one is owned by that section, defaults to `value`, and is the only
        change besides the descent. */
    method Setdefault(names: seq<string>, value: Value) returns (r: Result<(), ConfigError>)
      modifies this, Caches(root)`section
      ensures names == [] ==> r == Failure(TooFewArguments(1))
      ensures names != [] ==> Get(root, SectionNames(names)).Success?
      ensures names != [] && r.Success? ==>
        Lookup(Get(root, SectionNames(names)).value.keyVals, SettingKey, SettingName(names)).Some?
      ensures names != [] && r.Failure? ==> value.VOther? && r.error == NoDefaultType
      ensures names != [] ==>
        var d := Descended(old(root), SectionNames(names));
        var before := Lookup(Get(d, SectionNames(names)).value.keyVals, SettingKey, SettingName(names));
        && (before.Some? ==> r == Success(()))
        && (before.Some? || r.Failure? ==> root == d)
      ensures names != [] ==>
        var d := Descended(old(root), SectionNames(names));
        var before := Lookup(Get(d, SectionNames(names)).value.keyVals, SettingKey, SettingName(names));
        var k := Lookup(Get(root, SectionNames(names)).value.keyVals, SettingKey, SettingName(names));
        before.None? && r.Success? ==>
          && k.Some? && root == WithSetting(d, SectionNames(names), k.value)
          && fresh(k.value) && k.value.section == Some(SectionNames(names)) && k.value.Default() == value
      ensures names != [] && old(Get(root, SectionNames(names))).Success? ==>
        old(Lookup(Get(root, SectionNames(names)).value.keyVals, SettingKey, SettingName(names))).Some? ==>
          r == Success(()) && root == old(root)
    {
      if names == [] {
        return Failure(TooFewArguments(|names| + 1));
      }
      var parts := SplitArgs(names);
      var sections, name := parts[..|parts| - 1], parts[|parts| - 1];
      assert sections == SectionNames(names) && name == SettingName(names);
      var outcome := SetSetting(name, value, sections);
      if outcome.Failure? {
        return Failure(outcome.error);
      }
      return Success(());
    }
  }

  /** `setdefault('a.b', v)` as written, on a tree whose section `a` has
      neither a setting nor a subsection `b`: the call succeeds (or fails on
      an unsupported default) and afterwards `a.b` is still unrecognized. */
  method DottedSetdefaultAsWritten(c: Config, a: string, b: string, value: Value) returns (r: Result<(), ConfigError>)
    requires '.' !in a && '.' !in b
    requires Get(c.root, [a]).Success?
    requires Lookup(Get(c.root, [a]).value.keyVals, SettingKey, b).None?
    requires Lookup(Get(c.root, [a]).value.sections, SectionKey, b).None?
    modifies c, Caches(c.root)`section
    ensures r.Failure? ==> value.VOther?
    ensures r.Success? ==> FindOneObject(c.root, a + "." + b) == Failure(Unrecognized(a + "." + b))
  {
    ghost var n := c.root;
    SplitDotted(a, b);
    DescendedExisting(n, [a], 1);
    assert Descended(n, [a]) == n;
    r := c.SetdefaultAsWritten([a + "." + b], value);
    if r.Success? {
      var k := Lookup(c.root.keyVals, SettingKey, b).value;
      assert c.root == n.(keyVals := Put(n.keyVals, SettingKey, k));
      RootRegistrationUnreachable(n, a, k);
    }
  }

  /** The corrected `setdefault('a.b', v)` on the same tree: afterwards `a.b`
      is the new setting, whose default is `v`. */
  method DottedSetdefault(c: Config, a: string, b: string, value: Value) returns (r: Result<(), ConfigError>)
    requires '.' !in a && '.' !in b
    requires Get(c.root, [a]).Success?
    requires Lookup(Get(c.root, [a]).value.keyVals, SettingKey, b).None?
    requires Lookup(Get(c.root, [a]).value.sections, SectionKey, b).None?
    modifies c, Caches(c.root)`section
    ensures r.Failure? ==> value.VOther?
    ensures r.Success? ==> var found := FindOneObject(c.root, a + "." + b);
      found.Success? && found.value.FoundSetting? && found.value.setting.Default() == value
  {
    ghost var n := c.root;
    SplitDotted(a, b);
    DescendedExisting(n, [a], 1);
    assert Descended(n, [a]) == n;
    r := c.Setdefault([a + "." + b], value);
    if r.Success? {
      var k := Lookup(Get(c.root, [a]).value.keyVals, SettingKey, b).value;
      assert c.root == WithSetting(n, [a], k);
      SectionRegistrationFound(n, a, k);
    }
  }
}
