# ebpH userspace profile structures, modelled in Dafny

ebpH (Extended BPF Process Homeostasis) is a host-based intrusion detection
system: a BPF program learns, per executable, which Linux security-module
(LSM) hooks follow which, and flags deviations. This project models the
userspace side of its profile store, `ebph/structs.py`:

- the code tables shared with the BPF program: the profile status flags
  (TRAINING, FROZEN, NORMAL), the setting keys, and the 90-member LSM hook
  enumeration with `get_name` and `NUM_LSM`;
- the flag matrix (`EBPHProfileDataStruct`) and the profile record
  (`EBPHProfileStruct`) with their equality tests and `_asdict`;
- the profile magic number, derived from the major.minor version;
- `from_bpf` and `load_into_bpf`, which move a profile between the record
  and the three kernel maps `profiles`, `training_data` and `testing_data`.

Files and modules:

- `wrappers.dfy` (`Wrappers`): Option and Result.
- `ctypes.dfy` (`CTypes`): the ctypes behaviour the record relies on. Unsigned
  fields are `uint8`/`uint64` newtypes, and a Python int stored into a
  `c_uint64` keeps its low 64 bits. A `c_char * N` field stores only the
  bytes before the first NUL, raises ValueError when they do not fit, writes
  a terminating NUL when there is room, and reads back up to the first NUL.
- `magic.dfy` (`Magic`): `str.split`, `str.join`, the major.minor truncation,
  ASCII encoding and `calculate_profile_magic`.
- `enums.dfy` (`Enums`): `EBPH_PROFILE_STATUS`, `EBPH_SETTINGS`, `EBPH_LSM`,
  `get_name`, `NUM_LSM`.
- `structs.dfy` (`Structs`): the data struct, the profile record, the
  `BpfMaps` class with one `map` field per kernel map, `FromBpf`,
  `LoadIntoBpf`, and the round-trip and frame lemmas.

Foreign pieces are parameters. SHA-256 and the package version are the two
fields of a `MagicSource`: a version string and a function giving
`int(sha256(b).hexdigest(), 16)`. The BPF object is the `BpfMaps` class.
`defs.PATH_MAX` is not part of this model; `PATH_MAX` is fixed at 4096,
the Linux value.

Facts about the source that the model keeps:

- `EBPH_LSM` has 89 hooks plus the `LSM_MAX` sentinel.
- `from_bpf` does not compare magic numbers; it stamps the current magic on
  the record it builds.

## Model

| member | source | states |
|---|---|---|
| `CTypes.ToUint64` | ebph/structs.py:259-263 | storing an int in a c_uint64 keeps it when it is in range and is always congruent to it modulo 2^64 |
| `CTypes.CStr` | ebph/structs.py:226 | reading a `c_char * N` field gives the prefix before the first NUL: a prefix of the buffer, NUL-free, and followed by a NUL if shorter than the buffer |
| `CTypes.SetCharArray` | ebph/structs.py:260 | assigning `exe` fails exactly when its bytes before the first NUL exceed the buffer; otherwise the buffer keeps its size and reads back as those bytes, and when there is room a NUL follows them and the rest of the old buffer is kept |
| `CTypes.SetThenGet` | ebph/structs.py:226-260 | a NUL-free byte string that fits is read back unchanged after assignment |
| `Magic.Split` | ebph/structs.py:47 | `split('.')` gives at least one part, no part contains the separator, and joining the parts gives the string back |
| `Magic.Join` | ebph/structs.py:47 | `str.join`: empty for no parts, starts with the first part, and puts the separator right after it when there is more than one part |
| `Magic.SplitJoin` | ebph/structs.py:47 | splitting the join of separator-free parts gives the parts back |
| `Magic.JoinTake` | ebph/structs.py:47 | joining the first k parts gives a prefix of joining all of them |
| `Magic.MajorMinor` | ebph/structs.py:46-47 | the `major.minor` cut is a prefix of the version; the three lemmas below give its value for every number of dots |
| `Magic.MajorMinorOfLong` | ebph/structs.py:46-47 | a version with two or more dots is cut to `major.minor` |
| `Magic.MajorMinorOfMajor` | ebph/structs.py:46-47 | a version without a dot is kept whole |
| `Magic.MajorMinorOfMajorMinor` | ebph/structs.py:46-47 | a version with exactly one dot is kept whole |
| `Magic.AsciiEncode` | ebph/structs.py:47 | ASCII encoding succeeds exactly for ASCII text and keeps every character's code |
| `Magic.CalculateProfileMagic` | ebph/structs.py:39-49 | the magic exists exactly when the major.minor part is ASCII, is below 2^64, and is the digest of that part modulo 2^64 |
| `Magic.MagicIgnoresPatch` | ebph/structs.py:46-49 | versions that share major.minor have the same magic |
| `Magic.MagicOfPatchReleases` | ebph/structs.py:46-49 | 0.6.1 and 0.6.9 have the same magic, and it is defined |
| `Enums.FlagValue` | ebph/structs.py:52-60 | TRAINING is 0x1, FROZEN is 0x2 and NORMAL is 0x4, each flag its own value |
| `Enums.StatusOf` | ebph/structs.py:52-60 | every combination of flags fits in the uint8 status (below 8) and has exactly its own flags set |
| `Enums.StatusOfInjective` | ebph/structs.py:52-60 | different flag combinations give different status bytes |
| `Enums.SettingKey` | ebph/structs.py:63-76 | setting keys lie in 0..7 and follow declaration order: each setting's key is its position in `SETTINGS` (MONITORING 0, LOG_SEQUENCES 1, … ENFORCING 7) |
| `Enums.SettingOfKey` | ebph/structs.py:63-76 | exactly the keys 0..7 name a setting, and the setting found has that key and sits at that position of `SETTINGS` |
| `Enums.SettingKeyRoundTrip` | ebph/structs.py:63-76 | every setting is found again from its key |
| `Enums.LsmTable` | ebph/structs.py:78-183 | there are 90 members, LSM_MAX is the last with value 89, and NUM_LSM is 89 |
| `Enums.LsmMemberName` | ebph/structs.py:176-180 | a member exists exactly for the values 0..LSM_MAX, and it is the one declared at that position |
| `Enums.Lower` | ebph/structs.py:178 | lower-casing keeps the length, turns each upper-case ASCII letter into its lower-case letter (code + 32) and keeps every other character |
| `Enums.GetName` | ebph/structs.py:175-180 | `get_name` is total: the lower-cased member name for 0..LSM_MAX, `'empty'` otherwise, never an upper-case letter |
| `Enums.GetNameOfLsmMax` | ebph/structs.py:173-180 | the sentinel itself is named `'lsm_max'` |
| `Structs.ZeroData` | ebph/structs.py:190-195 | a fresh data struct holds NUM_LSM*NUM_LSM zero flags |
| `Structs.SameFlagsIsEquality` | ebph/structs.py:197-206 | agreeing in length and at every index is the same as being equal |
| `Structs.DataStructEq` | ebph/structs.py:197-206 | data-struct equality is true exactly when `other` has flags of the same length that agree at every index; a missing field gives false |
| `Structs.EmptyProfile` | ebph/structs.py:257 | a fresh profile record has every scalar zero, zero matrices of full size, and a zeroed PATH_MAX exe buffer that reads as empty |
| `Structs.Exe` | ebph/structs.py:226 | the `exe` attribute is NUL-free and no longer than its buffer |
| `Structs.ProfileEq` | ebph/structs.py:229-242 | profile equality holds exactly when `other` has the fields and agrees on key, status, the six counters and exe |
| `Structs.ProfileEqEquivalence` | ebph/structs.py:229-242 | profile equality is reflexive, symmetric and transitive |
| `Structs.ProfileEqIgnores` | ebph/structs.py:229-242 | magic, train and test do not take part in profile equality |
| `Structs.GetAttr` | ebph/structs.py:214-227 | reading an attribute succeeds exactly for the twelve names of `_fields_`; None for a name that is not a field (the class's other attributes, such as its methods, are not modelled) |
| `Structs.AsDict` | ebph/structs.py:245-246 | `_asdict` has exactly one entry per field of `_fields_`, named after it, in that order, holding `getattr` of that name |
| `Structs.AsDictComplete` | ebph/structs.py:245-246 | two records have equal dictionaries exactly when they are equal and also agree on magic, train and test |
| `Structs.Leaf` | ebph/structs.py:299-308 | the leaf written to `profiles` carries the profile's status and all six counters |
| `Structs.FromStore` | ebph/structs.py:251-293 | `from_bpf` fails on magic, then exe, then a missing `profiles` entry (KeyError); otherwise the key, exe, current magic and copied counters, with each matrix copied when present and zero otherwise |
| `Structs.Loaded` | ebph/structs.py:295-326 | after loading, each map has the profile's key added and no other key |
| `Structs.LoadedFrame` | ebph/structs.py:295-326 | entries under every other key are unchanged |
| `Structs.LoadedIgnoresMagicAndExe` | ebph/structs.py:295-326 | magic and exe are not stored in any map |
| `Structs.RoundTrip` | ebph/structs.py:252-326 | reading a just-loaded profile back gives one equal to it, with the same train and test and the current magic |
| `Structs.FromStoreAfterOtherLoad` | ebph/structs.py:252-326 | loading one profile does not change what is read for another key |
| `Structs.FromStoreKeyWraps` | ebph/structs.py:259-265 | the key is used modulo 2^64 |
| `Structs.FromBpf` | ebph/structs.py:251-293 | the step-by-step construction of `from_bpf` returns exactly the result described by `FromStore` |
| `Structs.LoadIntoBpf` | ebph/structs.py:295-326 | `load_into_bpf` sets the leaf, train and test under the profile's key, leaves everything else unchanged, and keeps the maps' matrices full-size |

## Left out

- SHA-256 and `ebph.version.__version__` are not modelled; they are the parameters of a `MagicSource`.
- The `RuntimeError` branches for a failed `ct.memmove` are left out (memmove returns its destination, which is never null); `addressof` and `sizeof` are left out too, and memmove copies the whole matrix.
- The byte layout of the ctypes structure (offsets, alignment padding) is not modelled, only the fields and their order; the source declares no `_pack_`, so ctypes' default alignment would apply.
- The bcc `BPF` object and the kind of each map are not modelled; an `IndexError` from an array map counts as a missing key, like a `KeyError`.
- `__str__` and `pformat` are presentation and are left out.
- Type errors are left out: an `exe` that is not `bytes`, a non-integer key or enum value.
- `other` in the two equality tests stands for any Python object. It is modelled as an optional record, where None means a compared attribute is missing.
- LoadIntoBpf: models the kernel's profile leaf as the status and six counters it sets. Any other field of that C struct is not part of this model.
- LoadIntoBpf: assumes each of the three map writes succeeds. A bcc map write can raise (a full hash map, an out-of-range array index), and since the writes happen in sequence a failure would leave `profiles` updated without its matrices; that partial update is not modelled.
- DataStructEq and ProfileEq: assume Python runs with assertions enabled. Under `python -O` the `assert` statements vanish, so the profile `__eq__` would return True for any `other` and the data `__eq__` True whenever `other.flags` has a length; that mode is not modelled.
- Lower: lower-cases ASCII letters only. Every member name is ASCII.
- The kernel side is not part of this model: lookahead-pair learning, anomaly scoring, status transitions and the administrative commands all live in the BPF program and the C library.
- The logger, the legacy command-line tool, the ctypes command bindings, packaging and the exec test program are I/O or plumbing, and are left out.
