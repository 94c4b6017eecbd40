/** The userspace view of an ebpH profile: the flag matrices, the
    fixed-layout profile record with its equality and dictionary view, and
    the transfer of a profile to and from the three BPF maps that hold
    profiles in the kernel (`profiles`, `training_data`, `testing_data`). */
module Structs {
  import opened Wrappers
  import opened CTypes
  import opened Magic
  import opened Enums

  /** The size of the `exe` buffer. The value of `defs.PATH_MAX` is not part
      of this model; 4096 is the Linux value. */
  const PATH_MAX: nat := 4096

  /** `(NUM_LSM * NUM_LSM) & sys.maxsize`: the mask leaves this small
      non-negative product unchanged. */
  const DATA_SIZE: nat := NUM_LSM * NUM_LSM

  // ---------------------------------------------------------------------
  // EBPHProfileDataStruct
  // ---------------------------------------------------------------------

  /** A flag matrix: `flags[i * NUM_LSM + j]` records that hook j followed
      hook i. A ctypes array of DATA_SIZE uint8 values. */
  datatype ProfileData = ProfileData(flags: seq<uint8>)

  predicate ValidData(d: ProfileData)
  {
    |d.flags| == DATA_SIZE
  }

  /** A freshly created data struct: ctypes zero-fills it. */
  function ZeroData(): (d: ProfileData)
    ensures ValidData(d)
    ensures forall i :: 0 <= i < |d.flags| ==> d.flags[i] == 0
  {
    ProfileData(seq(DATA_SIZE, _ => 0))
  }

  /** Same length and the same flag at every index. */
  predicate SameFlags(a: ProfileData, b: ProfileData)
  {
    |a.flags| == |b.flags| && forall i :: 0 <= i < |a.flags| ==> a.flags[i] == b.flags[i]
  }

  /** Agreeing at every index is the same as being the same matrix. */
  lemma SameFlagsIsEquality(a: ProfileData, b: ProfileData)
    ensures SameFlags(a, b) <==> a == b
  {
  }

  /** `EBPHProfileDataStruct.__eq__`. `other` is None when it has no `flags`
      attribute; that, a length mismatch, or a differing flag all give false
      rather than an exception. */
  method DataStructEq(self: ProfileData, other: Option<ProfileData>) returns (r: bool)
    ensures r <==> other.Some? && SameFlags(self, other.value)
  {
    if other.None? {
      return false;
    }
    var a, b := self.flags, other.value.flags;
    if |a| != |b| {
      return false;
    }
    var i := 0;
    while i < |a|
      invariant 0 <= i <= |a|
      invariant forall j :: 0 <= j < i ==> a[j] == b[j]
    {
      if a[i] != b[i] {
        return false;
      }
      i := i + 1;
    }
    return true;
  }

  // ---------------------------------------------------------------------
  // EBPHProfileStruct
  // ---------------------------------------------------------------------

  /** The profile record, field for field in `_fields_` order. `exeBuf` is
      the raw `c_char * PATH_MAX` buffer; the attribute `exe` reads it as a
      C string (see Exe). */
  datatype Profile = Profile(
    magic: uint64,
    profileKey: uint64,
    status: uint8,
    anomalyCount: uint64,
    trainCount: uint64,
    lastModCount: uint64,
    sequences: uint64,
    normalTime: uint64,
    count: uint64,
    train: ProfileData,
    test: ProfileData,
    exeBuf: seq<uint8>)

  predicate ValidProfile(p: Profile)
  {
    ValidData(p.train) && ValidData(p.test) && |p.exeBuf| == PATH_MAX
  }

  /** `EBPHProfileStruct()`: every field zero. */
  function EmptyProfile(): (p: Profile)
    ensures ValidProfile(p)
    ensures p.magic == 0 && p.profileKey == 0 && p.status == 0
    ensures p.anomalyCount == 0 && p.trainCount == 0 && p.lastModCount == 0
    ensures p.sequences == 0 && p.normalTime == 0 && p.count == 0
    ensures p.train == ZeroData() && p.test == ZeroData()
    ensures forall i :: 0 <= i < |p.exeBuf| ==> p.exeBuf[i] == 0
    ensures Exe(p) == []
  {
    Profile(0, 0, 0, 0, 0, 0, 0, 0, 0, ZeroData(), ZeroData(), seq(PATH_MAX, _ => 0))
  }

  /** The value of the attribute `exe`: the bytes of the buffer before its
      first NUL. */
  function Exe(p: Profile): (r: seq<uint8>)
    ensures |r| <= |p.exeBuf|
    ensures forall i :: 0 <= i < |r| ==> r[i] != 0
  {
    CStr(p.exeBuf)
  }

  /** The nine attributes that profile equality looks at. */
  datatype Compared = Compared(
    profileKey: uint64, status: uint8, anomalyCount: uint64, trainCount: uint64,
    lastModCount: uint64, sequences: uint64, normalTime: uint64, count: uint64,
    exe: seq<uint8>)

  function ComparedOf(p: Profile): Compared
  {
    Compared(p.profileKey, p.status, p.anomalyCount, p.trainCount, p.lastModCount,
             p.sequences, p.normalTime, p.count, Exe(p))
  }

  /** `EBPHProfileStruct.__eq__`. `other` is None when it lacks one of the
      compared attributes, which gives false instead of an exception. magic,
      train and test are not compared. */
  function ProfileEq(self: Profile, other: Option<Profile>): (r: bool)
    ensures r <==> other.Some? && ComparedOf(self) == ComparedOf(other.value)
  {
    match other
    case None => false
    case Some(o) =>
      self.profileKey == o.profileKey &&
      self.status == o.status &&
      self.anomalyCount == o.anomalyCount &&
      self.trainCount == o.trainCount &&
      self.lastModCount == o.lastModCount &&
      self.sequences == o.sequences &&
      self.normalTime == o.normalTime &&
      self.count == o.count &&
      Exe(self) == Exe(o)
  }

  /** Profile equality is an equivalence relation. */
  lemma ProfileEqEquivalence(p: Profile, q: Profile, s: Profile)
    ensures ProfileEq(p, Some(p))
    ensures ProfileEq(p, Some(q)) ==> ProfileEq(q, Some(p))
    ensures ProfileEq(p, Some(q)) && ProfileEq(q, Some(s)) ==> ProfileEq(p, Some(s))
  {
  }

  /** A profile equals any copy of itself with another magic or other
      matrices. */
  lemma ProfileEqIgnores(p: Profile, magic: uint64, train: ProfileData, test: ProfileData)
    ensures ProfileEq(p, Some(p.(magic := magic, train := train, test := test)))
  {
  }

  /** The value of one field, as `getattr` returns it. */
  datatype FieldValue = U64(u64: uint64) | U8(u8: uint8) | Data(data: ProfileData) | Bytes(bytes: seq<uint8>)

  /** The names in `_fields_`, in order. */
  const FIELD_NAMES: seq<string> := [
    "magic", "profile_key", "status", "anomaly_count", "train_count",
    "last_mod_count", "sequences", "normal_time", "count", "train", "test", "exe"
  ]

  /** `getattr(p, name)` read for the `_fields_` attribute with that name;
      None for a name that is not a field (the class's other attributes,
      such as its methods, are not modelled). */
  function GetAttr(p: Profile, name: string): (r: Option<FieldValue>)
    ensures r.Some? <==> name in FIELD_NAMES
  {
    if name == "magic" then Some(U64(p.magic))
    else if name == "profile_key" then Some(U64(p.profileKey))
    else if name == "status" then Some(U8(p.status))
    else if name == "anomaly_count" then Some(U64(p.anomalyCount))
    else if name == "train_count" then Some(U64(p.trainCount))
    else if name == "last_mod_count" then Some(U64(p.lastModCount))
    else if name == "sequences" then Some(U64(p.sequences))
    else if name == "normal_time" then Some(U64(p.normalTime))
    else if name == "count" then Some(U64(p.count))
    else if name == "train" then Some(Data(p.train))
    else if name == "test" then Some(Data(p.test))
    else if name == "exe" then Some(Bytes(Exe(p)))
    else None
  }

  /** `_asdict()`: one entry per field, in `_fields_` order (a Python dict
      keeps insertion order), each holding the attribute's value. */
  function AsDict(p: Profile): (d: seq<(string, FieldValue)>)
    ensures |d| == |FIELD_NAMES|
    ensures forall i :: 0 <= i < |d| ==> d[i].0 == FIELD_NAMES[i]
    ensures forall i :: 0 <= i < |d| ==> Some(d[i].1) == GetAttr(p, FIELD_NAMES[i])
  {
    [ ("magic", U64(p.magic)),
      ("profile_key", U64(p.profileKey)),
      ("status", U8(p.status)),
      ("anomaly_count", U64(p.anomalyCount)),
      ("train_count", U64(p.trainCount)),
      ("last_mod_count", U64(p.lastModCount)),
      ("sequences", U64(p.sequences)),
      ("normal_time", U64(p.normalTime)),
      ("count", U64(p.count)),
      ("train", Data(p.train)),
      ("test", Data(p.test)),
      ("exe", Bytes(Exe(p))) ]
  }

  /** Two profiles have the same dictionary exactly when they are equal and
      also agree on magic and both matrices. */
  lemma AsDictComplete(p: Profile, q: Profile)
    ensures AsDict(p) == AsDict(q) <==>
            ProfileEq(p, Some(q)) && p.magic == q.magic && p.train == q.train && p.test == q.test
  {
  }

  // ---------------------------------------------------------------------
  // The BPF maps and the transfer of a profile to and from them
  // ---------------------------------------------------------------------

  /** The kernel-side value of the `profiles` map: the seven counters and
      the status that load_into_bpf sets on a fresh leaf. */
  datatype BpfProfile = BpfProfile(
    status: uint8,
    anomalyCount: uint64,
    trainCount: uint64,
    lastModCount: uint64,
    sequences: uint64,
    normalTime: uint64,
    count: uint64)

  /** The contents of the three maps, keyed by profile key. */
  datatype Store = Store(
    profiles: map<uint64, BpfProfile>,
    trainingData: map<uint64, ProfileData>,
    testingData: map<uint64, ProfileData>)

  /** Every matrix the kernel stores has the full size. */
  predicate ValidStore(s: Store)
  {
    (forall k :: k in s.trainingData ==> ValidData(s.trainingData[k])) &&
    (forall k :: k in s.testingData ==> ValidData(s.testingData[k]))
  }

  /** The failures of from_bpf. */
  datatype Error =
    | VersionNotAscii  // UnicodeEncodeError from calculate_profile_magic
    | ExeTooLong       // ValueError from assigning `exe`
    | ProfileMissing   // KeyError: no entry in `profiles`

  /** The leaf load_into_bpf writes into `profiles`. */
  function Leaf(p: Profile): (l: BpfProfile)
    ensures l.status == p.status && l.anomalyCount == p.anomalyCount
    ensures l.trainCount == p.trainCount && l.lastModCount == p.lastModCount
    ensures l.sequences == p.sequences && l.normalTime == p.normalTime
    ensures l.count == p.count
  {
    BpfProfile(p.status, p.anomalyCount, p.trainCount, p.lastModCount,
               p.sequences, p.normalTime, p.count)
  }

  /** The profile `from_bpf(bpf, exe, profile_key)` returns for the maps `s`.
      The steps fail in this order: the magic, the exe assignment, the
      lookup in `profiles`. A matrix is copied only when its map has the
      key, and otherwise stays zero. */
  function FromStore(s: Store, exe: seq<uint8>, profileKey: int, src: MagicSource): (r: Result<Profile, Error>)
    ensures r == Err(VersionNotAscii) <==> CalculateProfileMagic(src).None?
    ensures r == Err(ExeTooLong) <==>
            CalculateProfileMagic(src).Some? && |CStr(exe)| > PATH_MAX
    ensures r == Err(ProfileMissing) <==>
            CalculateProfileMagic(src).Some? && |CStr(exe)| <= PATH_MAX &&
            ToUint64(profileKey) !in s.profiles
    ensures r.Ok? ==>
              var key := ToUint64(profileKey);
              var p := r.value;
              && p.magic == CalculateProfileMagic(src).value
              && p.profileKey == key
              && Exe(p) == CStr(exe)
              && |p.exeBuf| == PATH_MAX
              && Leaf(p) == s.profiles[key]
              && p.train == (if key in s.trainingData then s.trainingData[key] else ZeroData())
              && p.test == (if key in s.testingData then s.testingData[key] else ZeroData())
    ensures r.Ok? && ValidStore(s) ==> ValidProfile(r.value)
  {
    var empty := EmptyProfile();
    var key := ToUint64(profileKey);
    match CalculateProfileMagic(src)
    case None => Err(VersionNotAscii)
    case Some(magic) =>
      match SetCharArray(empty.exeBuf, exe)
      case None => Err(ExeTooLong)
      case Some(buf) =>
        if key !in s.profiles then Err(ProfileMissing)
        else
          var leaf := s.profiles[key];
          Ok(Profile(
            magic, key, leaf.status, leaf.anomalyCount, leaf.trainCount,
            leaf.lastModCount, leaf.sequences, leaf.normalTime, leaf.count,
            if key in s.trainingData then s.trainingData[key] else empty.train,
            if key in s.testingData then s.testingData[key] else empty.test,
            buf))
  }

  /** The maps after `load_into_bpf` of `p`: the leaf, train and test are
      written under its key. */
  function Loaded(s: Store, p: Profile): (r: Store)
    ensures r.profiles.Keys == s.profiles.Keys + {p.profileKey}
    ensures r.trainingData.Keys == s.trainingData.Keys + {p.profileKey}
    ensures r.testingData.Keys == s.testingData.Keys + {p.profileKey}
    ensures ValidStore(s) && ValidProfile(p) ==> ValidStore(r)
  {
    Store(s.profiles[p.profileKey := Leaf(p)],
          s.trainingData[p.profileKey := p.train],
          s.testingData[p.profileKey := p.test])
  }

  /** Loading touches only the entries of the profile's own key. */
  lemma LoadedFrame(s: Store, p: Profile, k: uint64)
    requires k != p.profileKey
    ensures k in s.profiles ==> Loaded(s, p).profiles[k] == s.profiles[k]
    ensures k in s.trainingData ==> Loaded(s, p).trainingData[k] == s.trainingData[k]
    ensures k in s.testingData ==> Loaded(s, p).testingData[k] == s.testingData[k]
  {
  }

  /** Neither magic nor exe is stored in any map. */
  lemma LoadedIgnoresMagicAndExe(s: Store, p: Profile, magic: uint64, exeBuf: seq<uint8>)
    ensures Loaded(s, p.(magic := magic, exeBuf := exeBuf)) == Loaded(s, p)
  {
  }

  /** Round trip: after loading `p`, reading its key back with its exe gives
      a profile equal to `p`, with the very same matrices, whose magic is
      the current magic. */
  lemma RoundTrip(s: Store, p: Profile, src: MagicSource)
    requires |p.exeBuf| == PATH_MAX
    requires CalculateProfileMagic(src).Some?
    ensures var r := FromStore(Loaded(s, p), Exe(p), p.profileKey as int, src);
            && r.Ok?
            && ProfileEq(r.value, Some(p))
            && r.value.train == p.train
            && r.value.test == p.test
            && r.value.magic == CalculateProfileMagic(src).value
  {
  }

  /** Reading a key is unaffected by loading a profile under another key. */
  lemma FromStoreAfterOtherLoad(s: Store, p: Profile, exe: seq<uint8>, profileKey: int, src: MagicSource)
    requires ToUint64(profileKey) != p.profileKey
    ensures FromStore(Loaded(s, p), exe, profileKey, src) == FromStore(s, exe, profileKey, src)
  {
  }

  /** The lookup uses the key's low 64 bits, as ctypes stores it. */
  lemma FromStoreKeyWraps(s: Store, exe: seq<uint8>, profileKey: int, src: MagicSource)
    ensures FromStore(s, exe, profileKey + TWO_TO_64, src) == FromStore(s, exe, profileKey, src)
  {
  }

  /** The three BPF maps, which load_into_bpf updates in place. */
  class BpfMaps {
    var profiles: map<uint64, BpfProfile>
    var trainingData: map<uint64, ProfileData>
    var testingData: map<uint64, ProfileData>

    function State(): Store
      reads this
    {
      Store(profiles, trainingData, testingData)
    }

    ghost predicate Valid()
      reads this
    {
      ValidStore(State())
    }
  }

  /** `EBPHProfileStruct.from_bpf`: builds the record step by step from a
      zeroed one, as the Python code does. */
  method FromBpf(bpf: BpfMaps, exe: seq<uint8>, profileKey: int, src: MagicSource)
    returns (r: Result<Profile, Error>)
    ensures r == FromStore(bpf.State(), exe, profileKey, src)
  {
    var profile := EmptyProfile();
    var magic := CalculateProfileMagic(src);
    if magic.None? {
      return Err(VersionNotAscii);
    }
    profile := profile.(magic := magic.value);
    profile := profile.(profileKey := ToUint64(profileKey));
    var buf := SetCharArray(profile.exeBuf, exe);
    if buf.None? {
      return Err(ExeTooLong);
    }
    profile := profile.(exeBuf := buf.value);

    var key := ToUint64(profileKey);
    if key !in bpf.profiles {
      return Err(ProfileMissing);
    }
    var leaf := bpf.profiles[key];
    profile := profile.(status := leaf.status);
    profile := profile.(anomalyCount := leaf.anomalyCount);
    profile := profile.(trainCount := leaf.trainCount);
    profile := profile.(lastModCount := leaf.lastModCount);
    profile := profile.(sequences := leaf.sequences);
    profile := profile.(normalTime := leaf.normalTime);
    profile := profile.(count := leaf.count);

    if key in bpf.trainingData {
      profile := profile.(train := bpf.trainingData[key]);
    }
    if key in bpf.testingData {
      profile := profile.(test := bpf.testingData[key]);
    }
    return Ok(profile);
  }

  /** `EBPHProfileStruct.load_into_bpf`: writes a fresh leaf with the
      profile's status and counters, then its two matrices, under its key;
      every other entry is left as it was. */
  method LoadIntoBpf(profile: Profile, bpf: BpfMaps)
    modifies bpf
    ensures bpf.profiles == old(bpf.profiles)[profile.profileKey := Leaf(profile)]
    ensures bpf.trainingData == old(bpf.trainingData)[profile.profileKey := profile.train]
    ensures bpf.testingData == old(bpf.testingData)[profile.profileKey := profile.test]
    ensures bpf.State() == Loaded(old(bpf.State()), profile)
    ensures old(bpf.Valid()) && ValidProfile(profile) ==> bpf.Valid()
  {
    var leaf := BpfProfile(0, 0, 0, 0, 0, 0, 0);
    leaf := leaf.(status := profile.status);
    leaf := leaf.(anomalyCount := profile.anomalyCount);
    leaf := leaf.(trainCount := profile.trainCount);
    leaf := leaf.(lastModCount := profile.lastModCount);
    leaf := leaf.(sequences := profile.sequences);
    leaf := leaf.(normalTime := profile.normalTime);
    leaf := leaf.(count := profile.count);
    bpf.profiles := bpf.profiles[profile.profileKey := leaf];

    var train := profile.train;
    bpf.trainingData := bpf.trainingData[profile.profileKey := train];

    var test := profile.test;
    bpf.testingData := bpf.testingData[profile.profileKey := test];
  }
}
