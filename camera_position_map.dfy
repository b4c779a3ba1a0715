/** The camera-position table of the seeding program (src/InitializeDatabase/CameraPositionMap.cs):
    a constant dictionary from site name, compared without case, to the site's sub-sites,
    each a dictionary from sub-site number to a sub-site with its dictionary from camera
    position number to position name; and the nine static lookups over it. A dictionary is
    modelled as its list of entries in insertion order, which is the order Keys and Values
    enumerate; TryGetValue finds the entry whose key equals the one asked for. */
module CameraPositionMap {
  import opened Wrappers
  import opened Text
  import opened Seqs
  import opened Records

  datatype SubSite = SubSite(name: string, nameMap: seq<(int, string)>)
  datatype Site = Site(name: string, subSites: seq<(int, SubSite)>)

  // ---------------------------------------------------------------- dictionaries as entry lists

  function Keys<K, V>(entries: seq<(K, V)>): (r: seq<K>)
    ensures |r| == |entries| && forall i :: 0 <= i < |entries| ==> r[i] == entries[i].0
  {
    if entries == [] then [] else [entries[0].0] + Keys(entries[1..])
  }

  /** TryGetValue on an integer-keyed dictionary: the value of the first entry with the key. */
  function Lookup<V>(entries: seq<(int, V)>, key: int): (r: Option<V>)
    ensures r.None? <==> key !in Keys(entries)
    ensures r.Some? ==> exists i :: 0 <= i < |entries| && entries[i] == (key, r.value)
                                     && forall j :: 0 <= j < i ==> entries[j].0 != key
  {
    if entries == [] then None
    else if entries[0].0 == key then Some(entries[0].1)
    else
      var r := Lookup(entries[1..], key);
      assert forall i :: 1 <= i < |entries| ==> entries[i] == entries[1..][i - 1];
      r
  }

  /** TryGetValue on a dictionary built with StringComparer.OrdinalIgnoreCase. */
  function FindIgnoreCase<V>(entries: seq<(string, V)>, key: string): (r: Option<V>)
    ensures r.None? <==> forall i :: 0 <= i < |entries| ==> !EqualsIgnoreCase(entries[i].0, key)
    ensures r.Some? ==> exists i :: 0 <= i < |entries| && EqualsIgnoreCase(entries[i].0, key) && entries[i].1 == r.value
                                     && forall j :: 0 <= j < i ==> !EqualsIgnoreCase(entries[j].0, key)
  {
    if entries == [] then None
    else if EqualsIgnoreCase(entries[0].0, key) then Some(entries[0].1)
    else
      var r := FindIgnoreCase(entries[1..], key);
      assert forall i :: 1 <= i < |entries| ==> entries[i] == entries[1..][i - 1];
      r
  }

  /** The entries of a position dictionary whose keys are 1, 2, ... in order. */
  function Numbered(names: seq<string>): seq<(int, string)> {
    seq(|names|, i requires 0 <= i < |names| => (i + 1, names[i]))
  }

  // ---------------------------------------------------------------- orders

  /** The default comparison of ints, as OrderBy(n => n) uses it. */
  predicate IntLe(a: int, b: int) {
    a <= b
  }

  /** Ordinal comparison of strings, character code by character code. */
  predicate StringLe(a: string, b: string) {
    a == [] || (b != [] && (a[0] < b[0] || (a[0] == b[0] && StringLe(a[1..], b[1..]))))
  }

  lemma IntLeTotalPreorder()
    ensures TotalPreorder(IntLe)
  {
  }

  lemma {:induction false} StringLeTotal(a: string, b: string)
    ensures StringLe(a, b) || StringLe(b, a)
  {
    if a != [] && b != [] && a[0] == b[0] {
      StringLeTotal(a[1..], b[1..]);
    }
  }

  lemma {:induction false} StringLeTransitive(a: string, b: string, c: string)
    requires StringLe(a, b) && StringLe(b, c)
    ensures StringLe(a, c)
  {
    if a != [] && a[0] == b[0] && b[0] == c[0] {
      StringLeTransitive(a[1..], b[1..], c[1..]);
    }
  }

  lemma {:induction false} StringLeAntisymmetric(a: string, b: string)
    requires StringLe(a, b) && StringLe(b, a)
    ensures a == b
  {
    if a != [] {
      StringLeAntisymmetric(a[1..], b[1..]);
      assert a == [a[0]] + a[1..] && b == [b[0]] + b[1..];
    }
  }

  lemma StringLeTotalPreorder()
    ensures TotalPreorder(StringLe)
  {
    forall a, b
      ensures StringLe(a, b) || StringLe(b, a)
    {
      StringLeTotal(a, b);
    }
    forall a, b, c | StringLe(a, b) && StringLe(b, c)
      ensures StringLe(a, c)
    {
      StringLeTransitive(a, b, c);
    }
  }

  // ---------------------------------------------------------------- the table

  /** Positions 1 to 8, which every sub-site starts with. */
  const Compass: seq<string> := ["North", "North East", "East", "South East", "South", "South West", "West", "North West"]

  const Sheep1Positions: seq<string> := Compass + [
    "Solar Panels", "Tower Base", "Site Access", "Soil Sensors", "Precipitation Gage",
    "Angel Peak", "Refuge HQ", "Vegetation Interspace"]
  const Sheep2Positions: seq<string> := Compass + [
    "Solar Panels", "Tower Base", "Site Access", "Soil Sensors", "Precipitation Gage",
    "LV Precip Station", "Angel Peak", "Hayford Peak", "Sheep 3&4", "Canopy Interspace"]
  const Sheep3Positions: seq<string> := Compass + [
    "Solar Panels", "Tower Base", "Site Access", "Soil Sensors", "Precipitation Gage",
    "Runoff Collector", "NRCS SCAN Site", "LV Precip Station"]
  const Sheep4Positions: seq<string> := Compass + [
    "Solar Panels", "Tower Base", "Site Access", "Soil Sensors", "Precipitation Gage",
    "Rain Gage", "Canopy Interspace", "Sap Flow Sensors", "PIMO Canopy"]
  const Rockland1Positions: seq<string> := Compass + [
    "Solar Panels", "Tower Base", "Mason Valley", "Sawtooth Ridge", "Sweetwater Range",
    "White Mountain Range", "Walker River", "Corey Peak", "Mt Grant", "North Aspect",
    "South Aspect", "Mt Rose"]
  const Spring0Positions: seq<string> := Compass
  const Spring1Positions: seq<string> := Compass
  const Spring2Positions: seq<string> := Compass
  const Spring3Positions: seq<string> := Compass + [
    "Solar Panels", "Tower Base", "Site Access", "Soil Sensors", "Precipitation Gage",
    "Snow Pole 1", "Snow Pole 2", "Mountain Mahogony Canopy", "Spring 1",
    "Cave Mountain"]
  const Spring4Positions: seq<string> := Compass + [
    "Solar Panels", "Tower Base", "Site Access", "Soil Sensors", "Precipitation Gage",
    "Snow Pole", "Snow Weighing Sensors (Shade)", "Snow Weighing Sensors (Sun)",
    "Bristlecone Canopy", "Limber Pine Canopy", "South Spring Valley",
    "South Schell Creek Range"]
  const Snake1Positions: seq<string> := Compass + [
    "Solar Panels", "Tower Base", "Site Access", "Tower Base 2", "Precipitation Gage",
    "UNLV Data Logger", "Great Basin National Park"]
  const Snake2Positions: seq<string> := Compass + [
    "Solar Panels", "Tower Base", "Site Access", "Soil Sensors", "Precipitation Gage",
    "Great Basin Ranch Exhibit", "Spring One"]
  const Snake3Positions: seq<string> := Compass + [
    "Solar Panels", "Tower Base", "Site Access", "Precipitation Gage",
    "Sap Flow Sensors", "Vegetation Interspace", "Deciduous Leaves", "Soil Sensors",
    "Snow Weighing Sensor", "Snow Depth Pole"]
  const Eldorado2Positions: seq<string> := Compass
  const Eldorado3Positions: seq<string> := Compass + [
    "Solar Panels", "Tower Base", "Site Access", "Precipitation Gage",
    "Sap Flow Sensors", "Vegetation Interspace", "Deciduous Leaves", "Soil Sensors",
    "Snow Weighing Sensor", "Snow Depth Pole"]

  const SheepSite: Site := Site("Sheep", [
    (1, SubSite("site_1", Numbered(Sheep1Positions))),
    (2, SubSite("site_2", Numbered(Sheep2Positions))),
    (3, SubSite("site_3", Numbered(Sheep3Positions))),
    (4, SubSite("site_4", Numbered(Sheep4Positions)))])

  const RocklandSite: Site := Site("Rockland", [
    (1, SubSite("site_1", Numbered(Rockland1Positions)))])

  const SpringSite: Site := Site("Spring", [
    (0, SubSite("site_0", Numbered(Spring0Positions))),
    (1, SubSite("site_1", Numbered(Spring1Positions))),
    (2, SubSite("site_2", Numbered(Spring2Positions))),
    (3, SubSite("site_3", Numbered(Spring3Positions))),
    (4, SubSite("site_4", Numbered(Spring4Positions)))])

  const SnakeSite: Site := Site("Snake", [
    (1, SubSite("site_1", Numbered(Snake1Positions))),
    (2, SubSite("site_2", Numbered(Snake2Positions))),
    (3, SubSite("site_3", Numbered(Snake3Positions)))])

  const EldoradoSite: Site := Site("Eldorado", [
    (2, SubSite("site_2", Numbered(Eldorado2Positions))),
    (3, SubSite("site_3", Numbered(Eldorado3Positions)))])

  /** Sites, in the order of its initializer. */
  const Sites: seq<(string, Site)> := [
    ("Sheep", SheepSite), ("Rockland", RocklandSite), ("Spring", SpringSite), ("Snake", SnakeSite),
    ("Eldorado", EldoradoSite)]

  // ---------------------------------------------------------------- the shape of the table

  /** A sub-site is named "site_" and its number, and its positions are numbered from 1
      without gaps, the first eight being the compass points. */
  predicate SubSiteShape(number: int, subSite: SubSite) {
    && number >= 0
    && subSite.name == "site_" + NatToString(number)
    && |subSite.nameMap| >= 8
    && (forall p :: 0 <= p < |subSite.nameMap| ==> subSite.nameMap[p].0 == p + 1)
    && (forall p :: 0 <= p < 8 ==> subSite.nameMap[p].1 == Compass[p])
  }

  /** A site carries its key as its name, and lists its sub-sites in increasing number order. */
  predicate SiteShape(key: string, site: Site) {
    && site.name == key
    && (forall i, j :: 0 <= i < j < |site.subSites| ==> site.subSites[i].0 < site.subSites[j].0)
    && (forall i :: 0 <= i < |site.subSites| ==> SubSiteShape(site.subSites[i].0, site.subSites[i].1))
  }

  /** No two site names are equal ignoring case (the initializer would throw otherwise), and
      every site is shaped as above. */
  predicate TableShape(sites: seq<(string, Site)>) {
    && (forall i, j :: 0 <= i < j < |sites| ==> !EqualsIgnoreCase(sites[i].0, sites[j].0))
    && (forall i :: 0 <= i < |sites| ==> SiteShape(sites[i].0, sites[i].1))
  }

  lemma NumberedShape(number: nat, positions: seq<string>)
    requires |positions| >= 8 && positions[..8] == Compass && number < 10
    ensures SubSiteShape(number, SubSite("site_" + NatToString(number), Numbered(positions)))
  {
    assert forall p :: 0 <= p < 8 ==> positions[p] == positions[..8][p];
  }

  lemma CompassFirst(extra: seq<string>)
    ensures (Compass + extra)[..8] == Compass
  {
  }

  lemma SheepShape()
    ensures SiteShape("Sheep", SheepSite)
  {
    CompassFirst(Sheep1Positions[8..]);
    NumberedShape(1, Sheep1Positions);
    CompassFirst(Sheep2Positions[8..]);
    NumberedShape(2, Sheep2Positions);
    CompassFirst(Sheep3Positions[8..]);
    NumberedShape(3, Sheep3Positions);
    CompassFirst(Sheep4Positions[8..]);
    NumberedShape(4, Sheep4Positions);
  }

  lemma RocklandShape()
    ensures SiteShape("Rockland", RocklandSite)
  {
    CompassFirst(Rockland1Positions[8..]);
    NumberedShape(1, Rockland1Positions);
  }

  lemma SpringShape()
    ensures SiteShape("Spring", SpringSite)
  {
    CompassFirst(Spring0Positions[8..]);
    NumberedShape(0, Spring0Positions);
    CompassFirst(Spring1Positions[8..]);
    NumberedShape(1, Spring1Positions);
    CompassFirst(Spring2Positions[8..]);
    NumberedShape(2, Spring2Positions);
    CompassFirst(Spring3Positions[8..]);
    NumberedShape(3, Spring3Positions);
    CompassFirst(Spring4Positions[8..]);
    NumberedShape(4, Spring4Positions);
  }

  lemma SnakeShape()
    ensures SiteShape("Snake", SnakeSite)
  {
    CompassFirst(Snake1Positions[8..]);
    NumberedShape(1, Snake1Positions);
    CompassFirst(Snake2Positions[8..]);
    NumberedShape(2, Snake2Positions);
    CompassFirst(Snake3Positions[8..]);
    NumberedShape(3, Snake3Positions);
  }

  lemma EldoradoShape()
    ensures SiteShape("Eldorado", EldoradoSite)
  {
    CompassFirst(Eldorado2Positions[8..]);
    NumberedShape(2, Eldorado2Positions);
    CompassFirst(Eldorado3Positions[8..]);
    NumberedShape(3, Eldorado3Positions);
  }

  /** Two strings whose k-th characters differ after folding are not equal ignoring case. */
  lemma DifferIgnoringCase(a: string, b: string, k: nat)
    requires k < |a| && k < |b| && LowerChar(a[k]) != LowerChar(b[k])
    ensures !EqualsIgnoreCase(a, b)
  {
    assert ToLower(a)[k] != ToLower(b)[k];
  }

  /** The first two characters of a key, folded. */
  function Tag(s: string): (char, char)
    requires |s| >= 2
  {
    (LowerChar(s[0]), LowerChar(s[1]))
  }

  /** Keys whose folded first two characters differ are not equal ignoring case. */
  lemma TagsDiffer(a: string, b: string)
    requires |a| >= 2 && |b| >= 2 && Tag(a) != Tag(b)
    ensures !EqualsIgnoreCase(a, b)
  {
    if LowerChar(a[0]) != LowerChar(b[0]) {
      DifferIgnoringCase(a, b, 0);
    } else {
      DifferIgnoringCase(a, b, 1);
    }
  }

  const SiteTags: seq<(char, char)> := [('s', 'h'), ('r', 'o'), ('s', 'p'), ('s', 'n'), ('e', 'l')]

  lemma SiteTag(i: nat)
    requires i < |Sites|
    ensures |Sites[i].0| >= 2 && Tag(Sites[i].0) == SiteTags[i]
  {
  }

  lemma SiteNamesDistinct()
    ensures forall i, j :: 0 <= i < j < |Sites| ==> !EqualsIgnoreCase(Sites[i].0, Sites[j].0)
  {
    forall i, j | 0 <= i < j < |Sites|
      ensures !EqualsIgnoreCase(Sites[i].0, Sites[j].0)
    {
      SiteTag(i);
      SiteTag(j);
      TagsDiffer(Sites[i].0, Sites[j].0);
    }
  }

  /** The table as initialized has that shape. */
  lemma SitesShape()
    ensures TableShape(Sites)
  {
    SheepShape();
    RocklandShape();
    SpringShape();
    SnakeShape();
    EldoradoShape();
    SiteNamesDistinct();
  }

  // ---------------------------------------------------------------- the lookups

  /** Sites.TryGetValue(siteName): the site whose name equals siteName ignoring case. */
  function FindSite(siteName: string): Option<Site> {
    FindIgnoreCase(Sites, siteName)
  }

  /** GetSiteNames: the keys of Sites, ordered. */
  function GetSiteNames(): (r: seq<string>)
    ensures SortedBy(r, StringLe)
    ensures multiset(r) == multiset(Keys(Sites))
  {
    StringLeTotalPreorder();
    SortBySorted(Keys(Sites), StringLe);
    SortBy(Keys(Sites), StringLe)
  }

  /** GetSubSiteNumbers: the sub-site numbers of a known site, ordered; none otherwise. */
  function GetSubSiteNumbers(siteName: string): (r: seq<int>)
    ensures FindSite(siteName).None? ==> r == []
    ensures FindSite(siteName).Some? ==>
              SortedBy(r, IntLe) && multiset(r) == multiset(Keys(FindSite(siteName).value.subSites))
  {
    match FindSite(siteName)
    case None => []
    case Some(site) =>
      IntLeTotalPreorder();
      SortBySorted(Keys(site.subSites), IntLe);
      SortBy(Keys(site.subSites), IntLe)
  }

  /** GetSubSite: the sub-site with that number of a known site, or null. */
  function GetSubSite(siteName: string, siteNumber: int): Option<SubSite> {
    match FindSite(siteName)
    case None => None
    case Some(site) => Lookup(site.subSites, siteNumber)
  }

  /** GetCameraPositions: the position dictionary of a known sub-site; an empty one otherwise. */
  function GetCameraPositions(siteName: string, siteNumber: int): seq<(int, string)> {
    match GetSubSite(siteName, siteNumber)
    case None => []
    case Some(subSite) => subSite.nameMap
  }

  /** GetCameraPositionNumbers: the position numbers of a known sub-site, ordered; none otherwise. */
  function GetCameraPositionNumbers(siteName: string, siteNumber: int): (r: seq<int>)
    ensures SortedBy(r, IntLe)
  {
    match GetSubSite(siteName, siteNumber)
    case None => []
    case Some(subSite) =>
      IntLeTotalPreorder();
      SortBySorted(Keys(subSite.nameMap), IntLe);
      SortBy(Keys(subSite.nameMap), IntLe)
  }

  /** GetCameraPositionName: the name of a position of a known sub-site, or null; a null
      site name makes TryGetValue throw ArgumentNullException. */
  function GetCameraPositionName(siteName: Option<string>, siteNumber: int, cameraPositionNumber: int)
    : (r: Result<Option<string>, Exception>)
    ensures r.Err? <==> siteName.None?
    ensures r.Err? ==> r.error == ArgumentNull
  {
    if siteName.None? then Err(ArgumentNull)
    else match GetSubSite(siteName.value, siteNumber)
      case None => Ok(None)
      case Some(subSite) => Ok(Lookup(subSite.nameMap, cameraPositionNumber))
  }

  /** The Name of each sub-site, in the order the dictionary enumerates its values. */
  function SubSiteNames(subSites: seq<(int, SubSite)>): (r: seq<string>)
    ensures |r| == |subSites| && forall i :: 0 <= i < |subSites| ==> r[i] == subSites[i].1.name
  {
    if subSites == [] then [] else [subSites[0].1.name] + SubSiteNames(subSites[1..])
  }

  /** GetSubSiteNames: the names of a known site's sub-sites; none otherwise. */
  function GetSubSiteNames(siteName: string): seq<string> {
    match FindSite(siteName)
    case None => []
    case Some(site) => SubSiteNames(site.subSites)
  }

  /** The ordering of Sites by key. */
  predicate ByKey(a: (string, Site), b: (string, Site)) {
    StringLe(a.0, b.0)
  }

  /** Each entry's key, paired with its site's ordered sub-site numbers. */
  function NumbersBySite(entries: seq<(string, Site)>): (r: seq<(string, seq<int>)>)
    ensures |r| == |entries|
    ensures forall i :: 0 <= i < |entries| ==>
              r[i] == (entries[i].0, SortBy(Keys(entries[i].1.subSites), IntLe))
  {
    if entries == [] then []
    else [(entries[0].0, SortBy(Keys(entries[0].1.subSites), IntLe))] + NumbersBySite(entries[1..])
  }

  /** GetAllSiteNumbers: Sites ordered by key, each mapped to its ordered sub-site numbers,
      collected into a dictionary that enumerates in that order. */
  function GetAllSiteNumbers(): seq<(string, seq<int>)> {
    NumbersBySite(SortBy(Sites, ByKey))
  }

  // ---------------------------------------------------------------- what the lookups promise

  /** The site found is one of the table's, so it has the table's shape. */
  lemma FoundSiteShaped(siteName: string)
    requires FindSite(siteName).Some?
    ensures SiteShape(FindSite(siteName).value.name, FindSite(siteName).value)
  {
    SitesShape();
  }

  /** The sub-site found carries the number asked for, so it has the table's shape. */
  lemma FoundSubSiteShaped(siteName: string, siteNumber: int)
    requires GetSubSite(siteName, siteNumber).Some?
    ensures SubSiteShape(siteNumber, GetSubSite(siteName, siteNumber).value)
  {
    FoundSiteShaped(siteName);
  }

  /** In a dictionary numbered from 1, position p is the p-th entry. */
  lemma NumberedLookup(nameMap: seq<(int, string)>, p: int)
    requires forall q :: 0 <= q < |nameMap| ==> nameMap[q].0 == q + 1
    ensures Lookup(nameMap, p) == if 1 <= p <= |nameMap| then Some(nameMap[p - 1].1) else None
  {
    if 1 <= p <= |nameMap| {
      assert Keys(nameMap)[p - 1] == p;
    }
  }

  /** Keys listed in increasing order are already what OrderBy gives. */
  lemma AscendingIsSorted(keys: seq<int>)
    requires forall i, j :: 0 <= i < j < |keys| ==> keys[i] < keys[j]
    ensures SortBy(keys, IntLe) == keys
  {
    SortBySortedIdentity(keys, IntLe);
  }

  /** A site name is found exactly when it equals, ignoring case, one of the names
      GetSiteNames lists. */
  lemma KnownSites(siteName: string)
    ensures FindSite(siteName).Some? <==> exists k :: k in GetSiteNames() && EqualsIgnoreCase(k, siteName)
  {
    FoundIffKeyListed(Sites, siteName, GetSiteNames());
  }

  /** For any listing of a dictionary's keys, a lookup ignoring case succeeds exactly when
      a listed key equals the one asked for. */
  lemma FoundIffKeyListed<V>(entries: seq<(string, V)>, key: string, names: seq<string>)
    requires multiset(names) == multiset(Keys(entries))
    ensures FindIgnoreCase(entries, key).Some? <==> exists k :: k in names && EqualsIgnoreCase(k, key)
  {
    if FindIgnoreCase(entries, key).Some? {
      var i :| 0 <= i < |entries| && EqualsIgnoreCase(entries[i].0, key);
      assert Keys(entries)[i] in multiset(names);
    } else {
      forall k | k in names
        ensures !EqualsIgnoreCase(k, key)
      {
        assert k in multiset(Keys(entries));
        var i :| 0 <= i < |entries| && Keys(entries)[i] == k;
      }
    }
  }

  /** The lookup does not depend on case: two names equal ignoring case find the same site. */
  lemma SiteLookupIgnoresCase(a: string, b: string)
    requires EqualsIgnoreCase(a, b)
    ensures FindSite(a) == FindSite(b)
    ensures GetSubSiteNumbers(a) == GetSubSiteNumbers(b) && GetSubSiteNames(a) == GetSubSiteNames(b)
  {
    FindIgnoringCase(Sites, a, b);
  }

  lemma {:induction false} FindIgnoringCase<V>(entries: seq<(string, V)>, a: string, b: string)
    requires EqualsIgnoreCase(a, b)
    ensures FindIgnoreCase(entries, a) == FindIgnoreCase(entries, b)
  {
    if entries != [] {
      FindIgnoringCase(entries[1..], a, b);
    }
  }

  /** No two keys are equal ignoring case, so each key finds its own entry. */
  lemma FindSiteOfKey(i: nat)
    requires i < |Sites|
    ensures FindSite(Sites[i].0) == Some(Sites[i].1)
  {
    SiteNamesDistinct();
    FindOwnKey(Sites, i);
  }

  /** In a dictionary whose keys differ ignoring case, each key finds its own entry. */
  lemma FindOwnKey<V>(entries: seq<(string, V)>, i: nat)
    requires i < |entries|
    requires forall a, b :: 0 <= a < b < |entries| ==> !EqualsIgnoreCase(entries[a].0, entries[b].0)
    ensures FindIgnoreCase(entries, entries[i].0) == Some(entries[i].1)
  {
    var key := entries[i].0;
    var k :| 0 <= k < |entries| && EqualsIgnoreCase(entries[k].0, key) && entries[k].1 == FindIgnoreCase(entries, key).value
             && forall j :: 0 <= j < k ==> !EqualsIgnoreCase(entries[j].0, key);
    assert EqualsIgnoreCase(key, key);
    assert k == i;
  }

  lemma SortedTail(s: seq<string>)
    requires s != [] && SortedBy(s, StringLe)
    ensures SortedBy(s[1..], StringLe)
  {
    forall x, y | 0 <= x < y < |s[1..]|
      ensures StringLe(s[1..][x], s[1..][y])
    {
      assert s[1..][x] == s[x + 1] && s[1..][y] == s[y + 1];
    }
  }

  lemma SortedHeadLeast(s: seq<string>, x: string)
    requires SortedBy(s, StringLe) && x in multiset(s)
    ensures StringLe(s[0], x)
  {
    var i :| 0 <= i < |s| && s[i] == x;
    if i == 0 {
      StringLeTotal(x, x);
    }
  }

  /** Two lists with the same elements and the same first element have the same rest. */
  lemma SameHeadSameTail(a: seq<string>, b: seq<string>)
    requires a != [] && b != [] && a[0] == b[0] && multiset(a) == multiset(b)
    ensures multiset(a[1..]) == multiset(b[1..])
  {
    assert a == [a[0]] + a[1..];
    assert b == [b[0]] + b[1..];
    assert multiset(a[1..]) == multiset(a) - multiset{a[0]};
    assert multiset(b[1..]) == multiset(b) - multiset{b[0]};
  }

  /** Two ordered lists holding the same names are the same list. */
  lemma {:induction false} SortedUnique(a: seq<string>, b: seq<string>)
    requires SortedBy(a, StringLe) && SortedBy(b, StringLe) && multiset(a) == multiset(b)
    ensures a == b
  {
    assert |a| == |multiset(a)| == |b|;
    if a != [] {
      SortedHeadLeast(b, a[0]);
      SortedHeadLeast(a, b[0]);
      StringLeAntisymmetric(a[0], b[0]);
      SameHeadSameTail(a, b);
      SortedTail(a);
      SortedTail(b);
      SortedUnique(a[1..], b[1..]);
    }
  }

  /** A list whose neighbours are in order is in order. */
  lemma {:induction false} OrderedByNeighbours(s: seq<string>)
    requires forall i :: 0 <= i < |s| - 1 ==> StringLe(s[i], s[i + 1])
    ensures SortedBy(s, StringLe)
  {
    if |s| > 1 {
      var t := s[1..];
      assert forall i :: 0 <= i < |t| ==> t[i] == s[i + 1];
      OrderedByNeighbours(t);
      forall i, j | 0 <= i < j < |s|
        ensures StringLe(s[i], s[j])
      {
        if i == 0 {
          if j > 1 {
            assert StringLe(t[0], t[j - 1]);
            StringLeTransitive(s[0], s[1], s[j]);
          }
        } else {
          assert StringLe(t[i - 1], t[j - 1]);
        }
      }
    }
  }

  lemma SiteKeys()
    ensures Keys(Sites) == ["Sheep", "Rockland", "Spring", "Snake", "Eldorado"]
  {
  }

  lemma AlphabeticalNames()
    ensures SortedBy(["Eldorado", "Rockland", "Sheep", "Snake", "Spring"], StringLe)
  {
    assert StringLe("Eldorado", "Rockland") && StringLe("Rockland", "Sheep");
    assert StringLe("Sheep", "Snake") && StringLe("Snake", "Spring");
    OrderedByNeighbours(["Eldorado", "Rockland", "Sheep", "Snake", "Spring"]);
  }

  /** GetSiteNames lists the five sites alphabetically, each once. */
  lemma SiteNamesInOrder()
    ensures GetSiteNames() == ["Eldorado", "Rockland", "Sheep", "Snake", "Spring"]
  {
    var expected := ["Eldorado", "Rockland", "Sheep", "Snake", "Spring"];
    SiteKeys();
    assert multiset(Keys(Sites)) == multiset(expected);
    AlphabeticalNames();
    SortedUnique(GetSiteNames(), expected);
  }

  /** Sub-sites are listed in increasing number order, so a site's numbers are its keys
      as written. */
  lemma SubSiteNumbersAreKeys(siteName: string)
    requires FindSite(siteName).Some?
    ensures GetSubSiteNumbers(siteName) == Keys(FindSite(siteName).value.subSites)
  {
    FoundSiteShaped(siteName);
    AscendingIsSorted(Keys(FindSite(siteName).value.subSites));
  }

  lemma NumbersOfKey(i: nat)
    requires i < |Sites|
    ensures GetSubSiteNumbers(Sites[i].0) == Keys(Sites[i].1.subSites)
  {
    FindSiteOfKey(i);
    SubSiteNumbersAreKeys(Sites[i].0);
  }

  /** The entries of the table, in the order they are written. */
  lemma SiteEntries()
    ensures Sites[0] == ("Sheep", SheepSite)
    ensures Sites[1] == ("Rockland", RocklandSite)
    ensures Sites[2] == ("Spring", SpringSite)
    ensures Sites[3] == ("Snake", SnakeSite)
    ensures Sites[4] == ("Eldorado", EldoradoSite)
  {
  }

  /** The sub-site numbers of each site as written in the table. */
  lemma SubSiteKeys()
    ensures Keys(SheepSite.subSites) == [1, 2, 3, 4]
    ensures Keys(RocklandSite.subSites) == [1]
    ensures Keys(SpringSite.subSites) == [0, 1, 2, 3, 4]
    ensures Keys(SnakeSite.subSites) == [1, 2, 3]
    ensures Keys(EldoradoSite.subSites) == [2, 3]
  {
  }

  /** The sub-site numbers of each site: Spring numbers its sub-sites from 0, Eldorado has no
      sub-site 1. */
  lemma SubSiteNumbersOfSites()
    ensures GetSubSiteNumbers("Sheep") == [1, 2, 3, 4]
    ensures GetSubSiteNumbers("Rockland") == [1]
    ensures GetSubSiteNumbers("Spring") == [0, 1, 2, 3, 4]
    ensures GetSubSiteNumbers("Snake") == [1, 2, 3]
    ensures GetSubSiteNumbers("Eldorado") == [2, 3]
  {
    SiteEntries();
    SubSiteKeys();
    NumbersOfKey(0);
    NumbersOfKey(1);
    NumbersOfKey(2);
    NumbersOfKey(3);
    NumbersOfKey(4);
  }

  /** GetSubSite finds a sub-site exactly for the numbers GetSubSiteNumbers lists. */
  lemma SubSiteIffNumber(siteName: string, siteNumber: int)
    ensures GetSubSite(siteName, siteNumber).Some? <==> siteNumber in GetSubSiteNumbers(siteName)
  {
    if FindSite(siteName).Some? {
      var keys := Keys(FindSite(siteName).value.subSites);
      assert siteNumber in keys <==> siteNumber in multiset(keys);
    }
  }

  /** Position names: a name comes back exactly for an entry of GetCameraPositions with that
      number. */
  lemma PositionNameIff(siteName: string, siteNumber: int, cameraPositionNumber: int, name: string)
    ensures GetCameraPositionName(Some(siteName), siteNumber, cameraPositionNumber) == Ok(Some(name)) <==>
              (cameraPositionNumber, name) in GetCameraPositions(siteName, siteNumber)
  {
    if GetSubSite(siteName, siteNumber).Some? {
      FoundSubSiteShaped(siteName, siteNumber);
      var nameMap := GetSubSite(siteName, siteNumber).value.nameMap;
      NumberedLookup(nameMap, cameraPositionNumber);
      if (cameraPositionNumber, name) in nameMap {
        var q :| 0 <= q < |nameMap| && nameMap[q] == (cameraPositionNumber, name);
      }
    }
  }

  /** ... and null exactly for a number GetCameraPositionNumbers does not list. */
  lemma PositionNameNull(siteName: string, siteNumber: int, cameraPositionNumber: int)
    ensures GetCameraPositionName(Some(siteName), siteNumber, cameraPositionNumber) == Ok(None) <==>
              cameraPositionNumber !in GetCameraPositionNumbers(siteName, siteNumber)
  {
    if GetSubSite(siteName, siteNumber).Some? {
      var nameMap := GetSubSite(siteName, siteNumber).value.nameMap;
      var keys := Keys(nameMap);
      assert cameraPositionNumber in keys <==> cameraPositionNumber in multiset(SortBy(keys, IntLe));
    }
  }

  /** The position numbers are the keys of GetCameraPositions in order; both are empty when
      the site or the sub-site is unknown. */
  lemma PositionNumbersAreSortedKeys(siteName: string, siteNumber: int)
    ensures GetCameraPositionNumbers(siteName, siteNumber) == SortBy(Keys(GetCameraPositions(siteName, siteNumber)), IntLe)
    ensures GetSubSite(siteName, siteNumber).None? ==>
              GetCameraPositions(siteName, siteNumber) == [] && GetCameraPositionNumbers(siteName, siteNumber) == []
  {
  }

  /** The position numbers run 1, 2, ... up to the number of positions, without gaps. */
  lemma PositionNumbersCountFromOne(siteName: string, siteNumber: int)
    ensures var numbers := GetCameraPositionNumbers(siteName, siteNumber);
            && |numbers| == |GetCameraPositions(siteName, siteNumber)|
            && forall i :: 0 <= i < |numbers| ==> numbers[i] == i + 1
  {
    PositionNumbersAreSortedKeys(siteName, siteNumber);
    var subSite := GetSubSite(siteName, siteNumber);
    if subSite.Some? {
      FoundSubSiteShaped(siteName, siteNumber);
      assert GetCameraPositions(siteName, siteNumber) == subSite.value.nameMap;
      ShapedNumbers(siteNumber, subSite.value);
    }
  }

  /** In a sub-site of that shape, the ordered position numbers are 1, 2, ... */
  lemma ShapedNumbers(number: int, subSite: SubSite)
    ensures SubSiteShape(number, subSite) ==>
              var numbers := SortBy(Keys(subSite.nameMap), IntLe);
              && |numbers| == |subSite.nameMap|
              && forall i :: 0 <= i < |numbers| ==> numbers[i] == i + 1
  {
    if SubSiteShape(number, subSite) {
      var keys := Keys(subSite.nameMap);
      assert forall i :: 0 <= i < |keys| ==> keys[i] == i + 1;
      AscendingIsSorted(keys);
    }
  }

  /** Positions 1 to 8 of every sub-site are North, North East, ..., North West. */
  lemma CompassPositions(siteName: string, siteNumber: int, cameraPositionNumber: int)
    requires GetSubSite(siteName, siteNumber).Some? && 1 <= cameraPositionNumber <= 8
    ensures GetCameraPositionName(Some(siteName), siteNumber, cameraPositionNumber) ==
              Ok(Some(Compass[cameraPositionNumber - 1]))
  {
    FoundSubSiteShaped(siteName, siteNumber);
    ShapedCompass(siteNumber, GetSubSite(siteName, siteNumber).value, cameraPositionNumber);
  }

  /** In a sub-site of that shape, positions 1 to 8 name the compass points. */
  lemma ShapedCompass(number: int, subSite: SubSite, p: int)
    requires SubSiteShape(number, subSite) && 1 <= p <= 8
    ensures Lookup(subSite.nameMap, p) == Some(Compass[p - 1])
  {
    NumberedLookup(subSite.nameMap, p);
  }

  /** Sub-site names follow their numbers: GetSubSiteNames lists "site_" and each number
      GetSubSiteNumbers gives, in the same order. */
  lemma SubSiteNamesFollowNumbers(siteName: string)
    ensures var names, numbers := GetSubSiteNames(siteName), GetSubSiteNumbers(siteName);
            && |names| == |numbers|
            && forall i :: 0 <= i < |names| ==> numbers[i] >= 0 && names[i] == "site_" + NatToString(numbers[i])
  {
    if FindSite(siteName).Some? {
      FoundSiteShaped(siteName);
      SubSiteNumbersAreKeys(siteName);
    }
  }

  /** Inserting an entry by key puts its key where inserting the key would. */
  lemma {:induction false} KeysInsert(x: (string, Site), s: seq<(string, Site)>)
    ensures Keys(Insert(x, s, ByKey)) == Insert(x.0, Keys(s), StringLe)
  {
    if s != [] {
      var k := Keys(s);
      assert k[0] == s[0].0 && k[1..] == Keys(s[1..]);
      if !ByKey(x, s[0]) {
        KeysInsert(x, s[1..]);
        var r := Insert(x, s, ByKey);
        assert r[0] == s[0] && r[1..] == Insert(x, s[1..], ByKey);
      }
    }
  }

  /** Ordering the entries by key orders their keys. */
  lemma {:induction false} KeysSortBy(s: seq<(string, Site)>)
    ensures Keys(SortBy(s, ByKey)) == SortBy(Keys(s), StringLe)
  {
    if s != [] {
      KeysSortBy(s[1..]);
      KeysInsert(s[0], SortBy(s[1..], ByKey));
      var k := Keys(s);
      assert k[0] == s[0].0 && k[1..] == Keys(s[1..]);
    }
  }

  /** For any entries the lookup finds as they are, ordering them by key and mapping them
      to their numbers lists the ordered keys, each with the numbers the lookup gives. */
  lemma NumbersBySortedKey(entries: seq<(string, Site)>)
    requires forall k :: 0 <= k < |entries| ==> FindSite(entries[k].0) == Some(entries[k].1)
    ensures Keys(NumbersBySite(SortBy(entries, ByKey))) == SortBy(Keys(entries), StringLe)
    ensures var all := NumbersBySite(SortBy(entries, ByKey));
            forall i :: 0 <= i < |all| ==> all[i].1 == GetSubSiteNumbers(all[i].0)
  {
    var sorted := SortBy(entries, ByKey);
    var all := NumbersBySite(sorted);
    assert Keys(all) == Keys(sorted) by {
      assert forall i :: 0 <= i < |all| ==> Keys(all)[i] == all[i].0 == sorted[i].0 == Keys(sorted)[i];
    }
    KeysSortBy(entries);
    forall i | 0 <= i < |all|
      ensures all[i].1 == GetSubSiteNumbers(all[i].0)
    {
      assert sorted[i] in multiset(entries);
      var k :| 0 <= k < |entries| && entries[k] == sorted[i];
    }
  }

  /** GetAllSiteNumbers lists the sites in the order GetSiteNames gives, each with the
      numbers GetSubSiteNumbers gives for it. */
  lemma AllSiteNumbersAgree()
    ensures Keys(GetAllSiteNumbers()) == GetSiteNames()
    ensures forall i :: 0 <= i < |GetAllSiteNumbers()| ==>
              GetAllSiteNumbers()[i].1 == GetSubSiteNumbers(GetAllSiteNumbers()[i].0)
  {
    forall k | 0 <= k < |Sites|
      ensures FindSite(Sites[k].0) == Some(Sites[k].1)
    {
      FindSiteOfKey(k);
    }
    NumbersBySortedKey(Sites);
  }
}
