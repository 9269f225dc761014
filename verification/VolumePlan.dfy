/** The volumes, mounts and claim templates a component gets from its list of persistent volumes. */
module VolumePlan {
  import opened GoStrings
  import opened PathNaming

  /** A configured persistent volume: without mount paths it is a template for every required path.
      `spec` stands for its claim spec and annotations. */
  datatype PersistentVolume = PersistentVolume(mountPaths: seq<string>, spec: int, logNotStore: bool)

  datatype Volume = Volume(name: string, claimName: string)
  datatype Mount = Mount(name: string, mountPath: string)
  datatype Claim = Claim(name: string, spec: int)

  // ----- the required paths

  function AllMountPaths(pvs: seq<PersistentVolume>): seq<string> {
    if pvs == [] then [] else AllMountPaths(pvs[..|pvs| - 1]) + pvs[|pvs| - 1].mountPaths
  }

  /** The component's own paths, every configured mount path, and the log path unless some volume or
      the component says the log is not stored. */
  function RequiredPaths(own: seq<string>, pvs: seq<PersistentVolume>, logNotStore: bool, logPath: string): seq<string> {
    own + AllMountPaths(pvs)
    + if logNotStore || exists i :: 0 <= i < |pvs| && pvs[i].logNotStore then [] else [logPath]
  }

  lemma {:induction false} MountPathsIff(pvs: seq<PersistentVolume>, path: string)
    ensures path in AllMountPaths(pvs) <==> exists i, k :: 0 <= i < |pvs| && 0 <= k < |pvs[i].mountPaths| && pvs[i].mountPaths[k] == path
  {
    if pvs != [] {
      var n := |pvs| - 1;
      MountPathsIff(pvs[..n], path);
      assert forall i | 0 <= i < n :: pvs[..n][i] == pvs[i];
      if i, k :| 0 <= i < |pvs| && 0 <= k < |pvs[i].mountPaths| && pvs[i].mountPaths[k] == path {
        if i < n { assert pvs[..n][i].mountPaths[k] == path; } else { assert path in pvs[n].mountPaths; }
      }
    }
  }

  /** A path is required exactly when it is the component's own, a volume lists it, or it is the log path
      while neither the component nor any volume keeps the log from being stored. */
  lemma RequiredIff(own: seq<string>, pvs: seq<PersistentVolume>, logNotStore: bool, logPath: string, path: string)
    ensures path in RequiredPaths(own, pvs, logNotStore, logPath)
       <==> || path in own
            || (exists i, k :: 0 <= i < |pvs| && 0 <= k < |pvs[i].mountPaths| && pvs[i].mountPaths[k] == path)
            || (path == logPath && !logNotStore && forall i | 0 <= i < |pvs| :: !pvs[i].logNotStore)
  {
    MountPathsIff(pvs, path);
  }

  /** The order, which decides who gets the shorter names: the own paths, then each volume's after those of
      the volumes before it, and the log path, when stored, last. */
  lemma RequiredOrder(own: seq<string>, pvs: seq<PersistentVolume>, logNotStore: bool, logPath: string)
    ensures own <= RequiredPaths(own, pvs, logNotStore, logPath)
    ensures pvs != [] ==> var n := |pvs| - 1;
              RequiredPaths(own, pvs, true, logPath) == RequiredPaths(own, pvs[..n], true, logPath) + pvs[n].mountPaths
    ensures !logNotStore && (forall i | 0 <= i < |pvs| :: !pvs[i].logNotStore) ==>
              RequiredPaths(own, pvs, false, logPath) == RequiredPaths(own, pvs, true, logPath) + [logPath]
  {
    assert RequiredPaths(own, pvs, true, logPath) == own + AllMountPaths(pvs);
  }

  // ----- which volume serves a path

  /** Volume j is the last one that lists the path. */
  ghost predicate LastListing(pvs: seq<PersistentVolume>, path: string, j: int) {
    0 <= j < |pvs| && path in pvs[j].mountPaths && forall m | j < m < |pvs| :: path !in pvs[m].mountPaths
  }

  /** Volume j is the last one without mount paths, which makes it a template for every required path. */
  ghost predicate LastTemplate(pvs: seq<PersistentVolume>, j: int) {
    0 <= j < |pvs| && pvs[j].mountPaths == [] && forall m | j < m < |pvs| :: pvs[m].mountPaths != []
  }

  ghost predicate Listed(pvs: seq<PersistentVolume>, path: string) {
    exists i :: 0 <= i < |pvs| && path in pvs[i].mountPaths
  }

  ghost predicate HasTemplate(pvs: seq<PersistentVolume>) {
    exists i :: 0 <= i < |pvs| && pvs[i].mountPaths == []
  }

  /** The claim spec a path gets: from the last volume listing it, else from the last template. */
  ghost predicate Serves(pvs: seq<PersistentVolume>, path: string, spec: int) {
    if Listed(pvs, path) then exists j :: LastListing(pvs, path, j) && spec == pvs[j].spec
    else exists j :: LastTemplate(pvs, j) && spec == pvs[j].spec
  }

  lemma NothingListed()
    ensures forall path :: !Listed([], path)
    ensures !HasTemplate([])
  {
  }

  /** Every mount path of volume i is served by i from now on. */
  method IndexMountPaths(before: map<string, nat>, mountPaths: seq<string>, i: nat) returns (pathPV: map<string, nat>)
    ensures forall path :: path in pathPV <==> path in before || path in mountPaths
    ensures forall path | path in pathPV :: pathPV[path] == if path in mountPaths then i else before[path]
  {
    pathPV := before;
    for k := 0 to |mountPaths|
      invariant forall path :: path in pathPV <==> path in before || path in mountPaths[..k]
      invariant forall path | path in pathPV :: pathPV[path] == if path in mountPaths[..k] then i else before[path]
    {
      pathPV := pathPV[mountPaths[k] := i];
    }
    assert mountPaths[..|mountPaths|] == mountPaths;
  }

  /** The index maps the planner builds before it makes any volume. */
  method IndexVolumes(pvs: seq<PersistentVolume>) returns (pathPV: map<string, nat>, template: int)
    ensures forall path :: path in pathPV <==> Listed(pvs, path)
    ensures forall path | path in pathPV :: pathPV[path] < |pvs| && LastListing(pvs, path, pathPV[path])
    ensures if HasTemplate(pvs) then 0 <= template < |pvs| && LastTemplate(pvs, template) else template == -1
  {
    hide Listed, HasTemplate, LastListing, LastTemplate;
    pathPV, template := map[], -1;
    NothingListed();
    assert pvs[..0] == [];
    for i := 0 to |pvs|
      invariant forall path :: path in pathPV <==> Listed(pvs[..i], path)
      invariant forall path | path in pathPV :: pathPV[path] < i && LastListing(pvs[..i], path, pathPV[path])
      invariant if HasTemplate(pvs[..i]) then 0 <= template < i && LastTemplate(pvs[..i], template) else template == -1
    {
      var mountPaths := pvs[i].mountPaths;
      ListedMore(pvs, i);
      if |mountPaths| == 0 {
        template := i;
        continue;
      }
      pathPV := IndexMountPaths(pathPV, mountPaths, i);
    }
    assert pvs[..|pvs|] == pvs;
  }

  lemma ListedMore(pvs: seq<PersistentVolume>, i: nat)
    requires i < |pvs|
    ensures forall path :: Listed(pvs[..i + 1], path) <==> Listed(pvs[..i], path) || path in pvs[i].mountPaths
    ensures HasTemplate(pvs[..i + 1]) <==> HasTemplate(pvs[..i]) || pvs[i].mountPaths == []
    ensures forall path | path in pvs[i].mountPaths :: LastListing(pvs[..i + 1], path, i)
    ensures forall path, j | path !in pvs[i].mountPaths && LastListing(pvs[..i], path, j) :: LastListing(pvs[..i + 1], path, j)
    ensures pvs[i].mountPaths == [] ==> LastTemplate(pvs[..i + 1], i)
    ensures forall j | pvs[i].mountPaths != [] && LastTemplate(pvs[..i], j) :: LastTemplate(pvs[..i + 1], j)
  {
    var more, less := pvs[..i + 1], pvs[..i];
    assert forall m | 0 <= m < i :: more[m] == less[m];
    assert more[i] == pvs[i];
  }

  // ----- the plan

  method BuildRequiredPaths(own: seq<string>, pvs: seq<PersistentVolume>, logNotStore: bool, logPath: string)
    returns (required: seq<string>)
    ensures required == RequiredPaths(own, pvs, logNotStore, logPath)
  {
    required := own;
    var noLog := false;
    for i := 0 to |pvs|
      invariant required == own + AllMountPaths(pvs[..i])
      invariant noLog <==> exists j :: 0 <= j < i && pvs[j].logNotStore
    {
      assert pvs[..i + 1][..i] == pvs[..i];
      if |pvs[i].mountPaths| != 0 { required := required + pvs[i].mountPaths; }
      noLog := noLog || pvs[i].logNotStore;
    }
    assert pvs[..|pvs|] == pvs;
    if !noLog && !logNotStore { required := required + [logPath]; }
  }

  /** Volume, mount and claim agree on a name, which is the path's assigned name, and the claim has
      the spec of the volume that serves the path. */
  ghost predicate Consistent(required: seq<string>, pvs: seq<PersistentVolume>, volume: Volume, mount: Mount, claim: Claim) {
    var names := AssignNames(required).pathName;
    && mount.mountPath in names
    && volume.name == UnderscoresToDashes(names[mount.mountPath])
    && volume.claimName == volume.name && mount.name == volume.name && claim.name == volume.name
    && Serves(pvs, mount.mountPath, claim.spec)
  }

  ghost predicate Mounted(mounts: seq<Mount>, path: string) {
    exists k :: 0 <= k < |mounts| && mounts[k].mountPath == path
  }

  lemma NothingMounted()
    ensures forall path :: !Mounted([], path)
  {
  }

  lemma MountedMore(mounts: seq<Mount>, m: Mount)
    ensures forall path :: Mounted(mounts + [m], path) <==> Mounted(mounts, path) || path == m.mountPath
    ensures forall k | 0 <= k < |mounts| :: Mounted(mounts, mounts[k].mountPath)
  {
    forall path ensures Mounted(mounts + [m], path) <==> Mounted(mounts, path) || path == m.mountPath {
      var more := mounts + [m];
      assert more[|mounts|] == m;
      if k :| 0 <= k < |mounts| && mounts[k].mountPath == path { assert more[k].mountPath == path; }
    }
  }

  lemma ServedBy(pvs: seq<PersistentVolume>, path: string, pathPV: map<string, nat>, template: int)
    requires forall p :: p in pathPV <==> Listed(pvs, p)
    requires forall p | p in pathPV :: pathPV[p] < |pvs| && LastListing(pvs, p, pathPV[p])
    requires if HasTemplate(pvs) then 0 <= template < |pvs| && LastTemplate(pvs, template) else template == -1
    requires path in pathPV || template != -1
    ensures Serves(pvs, path, if path in pathPV then pvs[pathPV[path]].spec else pvs[template].spec)
  {
    hide Listed, HasTemplate;
  }

  /** The last place of p in the list is after every place of r. */
  ghost predicate EndsLater(required: seq<string>, p: string, r: string) {
    forall q | 0 <= q < |required| && required[q] == r :: p in required[q + 1..]
  }

  lemma EndsLaterThan(required: seq<string>, p: string, i: nat)
    requires 0 < i <= |required| && p in required[i..] && required[i - 1] !in required[i..]
    ensures EndsLater(required, p, required[i - 1])
  {
    forall q | 0 <= q < |required| && required[q] == required[i - 1] ensures p in required[q + 1..] {
      var k :| 0 <= k < |required[i..]| && required[i..][k] == p;
      assert required[q + 1..][i + k - q - 1] == p;
    }
  }

  lemma MountsEndLater(required: seq<string>, mounts: seq<Mount>, i: nat)
    requires 0 < i <= |required| && required[i - 1] !in required[i..]
    requires forall k | 0 <= k < |mounts| :: mounts[k].mountPath in required[i..]
    ensures forall k | 0 <= k < |mounts| :: EndsLater(required, mounts[k].mountPath, required[i - 1])
  {
    hide EndsLater;
    forall k | 0 <= k < |mounts| ensures EndsLater(required, mounts[k].mountPath, required[i - 1]) {
      EndsLaterThan(required, mounts[k].mountPath, i);
    }
  }

  /** Distinct paths get volumes of distinct names, on clean paths and on paths of which none collides. */
  lemma VolumesDiffer(required: seq<string>, pvs: seq<PersistentVolume>, volumes: seq<Volume>, mounts: seq<Mount>, claims: seq<Claim>)
    requires |volumes| == |mounts| == |claims|
    requires forall k | 0 <= k < |mounts| :: Consistent(required, pvs, volumes[k], mounts[k], claims[k])
    requires forall i, j | 0 <= i < j < |mounts| :: mounts[i].mountPath != mounts[j].mountPath
    requires Clean(required) || NoneCollides(required)
    ensures forall i, j | 0 <= i < j < |volumes| :: volumes[i].name != volumes[j].name
  {
    hide NoneCollides, AssignNames, Clean, Serves;
    EveryPathNamed(required);
    forall j, k | 0 <= j < k < |volumes| ensures volumes[j].name != volumes[k].name {
      if Clean(required) {
        CleanPathsGetDistinctNames(required, mounts[j].mountPath, mounts[k].mountPath);
      } else {
        NoneCollidesNames(required, mounts[j].mountPath, mounts[k].mountPath);
      }
    }
  }

  lemma ConsistentPlan(required: seq<string>, pvs: seq<PersistentVolume>, path: string, name: string, spec: int)
    requires var names := AssignNames(required).pathName; path in names && name == UnderscoresToDashes(names[path])
    requires Serves(pvs, path, spec)
    ensures Consistent(required, pvs, Volume(name, name), Mount(name, path), Claim(name, spec))
  {
    hide Serves, AssignNames;
  }

  /** The plan: one volume, mount and claim for exactly the required paths that some volume lists or a
      template covers, each path once, the path listed last first. */
  method BuildVolumes(required: seq<string>, pvs: seq<PersistentVolume>)
    returns (volumes: seq<Volume>, mounts: seq<Mount>, claims: seq<Claim>)
    ensures |volumes| == |mounts| == |claims|
    ensures forall k | 0 <= k < |mounts| :: Consistent(required, pvs, volumes[k], mounts[k], claims[k])
    ensures forall i, j | 0 <= i < j < |mounts| :: mounts[i].mountPath != mounts[j].mountPath
    ensures forall i, j | 0 <= i < j < |mounts| :: EndsLater(required, mounts[i].mountPath, mounts[j].mountPath)
    ensures forall path :: Mounted(mounts, path) <==> path in required && (Listed(pvs, path) || HasTemplate(pvs))
    ensures Clean(required) || NoneCollides(required) ==>
              forall i, j | 0 <= i < j < |volumes| :: volumes[i].name != volumes[j].name
  {
    hide Consistent, EndsLater, NoneCollides, AssignNames, Clean, Mounted, Serves, Listed, HasTemplate, LastListing, LastTemplate;
    var naming := NamePaths(required);
    EveryPathNamed(required);
    var pathPV, template := IndexVolumes(pvs);
    volumes, mounts, claims := [], [], [];
    NothingMounted();
    var seen: set<string> := {};
    var i := |required|;
    while i > 0
      invariant 0 <= i <= |required|
      invariant seen == set p | p in required[i..]
      invariant |volumes| == |mounts| == |claims|
      invariant forall k | 0 <= k < |mounts| :: Consistent(required, pvs, volumes[k], mounts[k], claims[k])
      invariant forall j, k | 0 <= j < k < |mounts| :: mounts[j].mountPath != mounts[k].mountPath
      invariant forall j, k | 0 <= j < k < |mounts| :: EndsLater(required, mounts[j].mountPath, mounts[k].mountPath)
      invariant forall k | 0 <= k < |mounts| :: mounts[k].mountPath in required[i..]
      invariant forall path :: Mounted(mounts, path) <==> path in seen && (path in pathPV || template != -1)
    {
      var path := required[i - 1];
      assert required[i - 1..] == [path] + required[i..];
      i := i - 1;
      if path in seen { continue; }
      seen := seen + {path};
      var name := UnderscoresToDashes(naming.pathName[path]);
      if path in pathPV || template != -1 {
        var spec := if path in pathPV then pvs[pathPV[path]].spec else pvs[template].spec;
        ServedBy(pvs, path, pathPV, template);
        ConsistentPlan(required, pvs, path, name, spec);
        MountedMore(mounts, Mount(name, path));
        MountsEndLater(required, mounts, i + 1);
        volumes := volumes + [Volume(name, name)];
        mounts := mounts + [Mount(name, path)];
        claims := claims + [Claim(name, spec)];
      }
    }
    if Clean(required) || NoneCollides(required) { VolumesDiffer(required, pvs, volumes, mounts, claims); }
  }
}
