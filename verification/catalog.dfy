/** The asset catalog of govatar.go: the `Gender` constants, the `person`
    and `store` records, and their construction by `getPerson`,
    `mustAssetsList` and `init`. The embedded file system is the parameter
    `readDir` (the entry names `fs.ReadDir` lists for a directory) and the
    comparator of the sort is the parameter `less`. */
module Catalog {
  import opened FilePath
  import opened Sorting

  /** Go's `type Gender int`; only `MALE` and `FEMALE` are defined. */
  type Gender = int

  const MALE: Gender := 0
  const FEMALE: Gender := 1

  predicate Supported(g: Gender) {
    g == MALE || g == FEMALE
  }

  /** The per-gender asset lists. */
  datatype Person = Person(clothes: seq<string>, eye: seq<string>, face: seq<string>,
                           hair: seq<string>, mouth: seq<string>)
  {
    /** Every category has at least one asset, so a draw from each is
        possible. */
    predicate Drawable() {
      |clothes| > 0 && |eye| > 0 && |face| > 0 && |hair| > 0 && |mouth| > 0
    }
  }

  /** The process-wide asset store: one background list shared by both
      genders, and one `Person` per gender. */
  datatype Store = Store(background: seq<string>, male: Person, female: Person)
  {
    /** The person record `GenerateForUsername` hands to `randomAvatar`. */
    function PersonFor(g: Gender): Person
      requires Supported(g)
    {
      if g == MALE then male else female
    }

    /** Generation for `g` can draw from every list it uses. */
    predicate ReadyFor(g: Gender)
      requires Supported(g)
    {
      |background| > 0 && PersonFor(g).Drawable()
    }
  }

  /** The directory name `getPerson` uses for a gender: `female` for
      `FEMALE`, `male` for `MALE`, and the empty string otherwise. */
  function GenderPath(g: Gender): (name: string)
    ensures name != "" <==> Supported(g)
  {
    if g == FEMALE then "female"
    else if g == MALE then "male"
    else ""
  }

  /** One identifier per directory entry, `filepath.Join(dir, name)`, in
      listing order. */
  function JoinAll(dir: string, names: seq<string>): (ids: seq<string>)
    ensures |ids| == |names|
  {
    seq(|names|, i requires 0 <= i < |names| => Join(dir, names[i]))
  }

  /** `mustAssetsList(dir)`: the entries of `dir`, each joined to `dir`,
      sorted by `less`. */
  function AssetsList(readDir: string -> seq<string>, less: (string, string) -> bool, dir: string): (assets: seq<string>)
    requires StrictWeakOrder(less)
    ensures |assets| == |readDir(dir)|
    ensures multiset(assets) == multiset(JoinAll(dir, readDir(dir)))
    ensures Sorted(assets, less)
  {
    SortBy(JoinAll(dir, readDir(dir)), less)
  }

  /** Every listed asset is `dir/name` for an entry `name` of `dir`, and every
      entry yields one. */
  lemma AssetsListMembers(readDir: string -> seq<string>, less: (string, string) -> bool, dir: string, id: string)
    requires StrictWeakOrder(less)
    ensures id in AssetsList(readDir, less, dir) <==> exists name :: name in readDir(dir) && id == Join(dir, name)
  {
    var names := readDir(dir);
    var assets := AssetsList(readDir, less, dir);
    var ids := JoinAll(dir, names);
    assert id in assets <==> id in multiset(ids);
    if id in ids {
      var i :| 0 <= i < |ids| && ids[i] == id;
      assert names[i] in names;
    }
    if exists name :: name in names && id == Join(dir, name) {
      var name :| name in names && id == Join(dir, name);
      var i :| 0 <= i < |names| && names[i] == name;
      assert ids[i] == id;
    }
  }

  /** The directory names `getPerson` builds by concatenation, spelled out. */
  lemma PersonDirNames()
    ensures "data/" + GenderPath(MALE) + "/clothes" == "data/male/clothes"
    ensures "data/" + GenderPath(MALE) + "/eye" == "data/male/eye"
    ensures "data/" + GenderPath(MALE) + "/face" == "data/male/face"
    ensures "data/" + GenderPath(MALE) + "/hair" == "data/male/hair"
    ensures "data/" + GenderPath(MALE) + "/mouth" == "data/male/mouth"
    ensures "data/" + GenderPath(FEMALE) + "/clothes" == "data/female/clothes"
    ensures "data/" + GenderPath(FEMALE) + "/eye" == "data/female/eye"
    ensures "data/" + GenderPath(FEMALE) + "/face" == "data/female/face"
    ensures "data/" + GenderPath(FEMALE) + "/hair" == "data/female/hair"
    ensures "data/" + GenderPath(FEMALE) + "/mouth" == "data/female/mouth"
  {
  }

  /** `getPerson(gender)`: the five category lists read from
      `data/<gender>/<category>`. */
  function GetPerson(readDir: string -> seq<string>, less: (string, string) -> bool, g: Gender): (p: Person)
    requires StrictWeakOrder(less)
    ensures g == MALE ==> p == Person(AssetsList(readDir, less, "data/male/clothes"),
                                      AssetsList(readDir, less, "data/male/eye"),
                                      AssetsList(readDir, less, "data/male/face"),
                                      AssetsList(readDir, less, "data/male/hair"),
                                      AssetsList(readDir, less, "data/male/mouth"))
    ensures g == FEMALE ==> p == Person(AssetsList(readDir, less, "data/female/clothes"),
                                        AssetsList(readDir, less, "data/female/eye"),
                                        AssetsList(readDir, less, "data/female/face"),
                                        AssetsList(readDir, less, "data/female/hair"),
                                        AssetsList(readDir, less, "data/female/mouth"))
  {
    PersonDirNames();
    Person(AssetsList(readDir, less, "data/" + GenderPath(g) + "/clothes"),
           AssetsList(readDir, less, "data/" + GenderPath(g) + "/eye"),
           AssetsList(readDir, less, "data/" + GenderPath(g) + "/face"),
           AssetsList(readDir, less, "data/" + GenderPath(g) + "/hair"),
           AssetsList(readDir, less, "data/" + GenderPath(g) + "/mouth"))
  }

  /** None of the eleven directories `init` reads is empty. */
  ghost predicate AssetDirsNonEmpty(readDir: string -> seq<string>) {
    && |readDir("data/background")| > 0
    && |readDir("data/male/clothes")| > 0 && |readDir("data/male/eye")| > 0
    && |readDir("data/male/face")| > 0 && |readDir("data/male/hair")| > 0
    && |readDir("data/male/mouth")| > 0
    && |readDir("data/female/clothes")| > 0 && |readDir("data/female/eye")| > 0
    && |readDir("data/female/face")| > 0 && |readDir("data/female/hair")| > 0
    && |readDir("data/female/mouth")| > 0
  }

  /** `init`: the store built from the male and female persons and the shared
      background directory. It can serve both genders exactly when none of
      the asset directories is empty. */
  function Init(readDir: string -> seq<string>, less: (string, string) -> bool): (store: Store)
    requires StrictWeakOrder(less)
    ensures store.background == AssetsList(readDir, less, "data/background")
    ensures forall g | Supported(g) :: store.PersonFor(g) == GetPerson(readDir, less, g)
    ensures |store.background| == |readDir("data/background")|
    ensures (store.ReadyFor(MALE) && store.ReadyFor(FEMALE)) <==> AssetDirsNonEmpty(readDir)
  {
    var male := GetPerson(readDir, less, MALE);
    var female := GetPerson(readDir, less, FEMALE);
    Store(AssetsList(readDir, less, "data/background"), male, female)
  }
}
