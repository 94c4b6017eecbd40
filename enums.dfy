/** The fixed code tables shared with the BPF program: the profile status
    bit flags, the setting keys, and the closed enumeration of tracked Linux
    security-module (LSM) hooks with its name lookup. */
module Enums {
  import opened Wrappers
  import opened CTypes

  // ---------------------------------------------------------------------
  // EBPH_PROFILE_STATUS: an IntFlag of three single-bit flags
  // ---------------------------------------------------------------------

  datatype StatusFlag = Training | Frozen | Normal

  /** TRAINING = 0x1, FROZEN = 0x2, NORMAL = 0x4. */
  function FlagValue(f: StatusFlag): (r: uint8)
    ensures f == Training <==> r == 1
    ensures f == Frozen <==> r == 2
    ensures f == Normal <==> r == 4
  {
    match f
    case Training => 0x1
    case Frozen => 0x2
    case Normal => 0x4
  }

  /** Whether the bit of `f` is set in a status byte. */
  predicate HasFlag(status: uint8, f: StatusFlag)
  {
    (status as int / FlagValue(f) as int) % 2 == 1
  }

  /** The status byte holding exactly the flags in `flags` (the IntFlag
      `|` of those members). */
  function StatusOf(flags: set<StatusFlag>): (r: uint8)
    ensures r < 8
    ensures forall f :: HasFlag(r, f) <==> f in flags
  {
    (if Training in flags then 0x1 else 0) +
    (if Frozen in flags then 0x2 else 0) +
    (if Normal in flags then 0x4 else 0)
  }

  /** The three flags are distinct single bits, so every combination is a
      different status byte: the byte determines the set of flags. */
  lemma StatusOfInjective(a: set<StatusFlag>, b: set<StatusFlag>)
    requires StatusOf(a) == StatusOf(b)
    ensures a == b
  {
  }

  // ---------------------------------------------------------------------
  // EBPH_SETTINGS: an IntEnum numbered from 0
  // ---------------------------------------------------------------------

  datatype Setting =
    | Monitoring
    | LogSequences
    | NormalWait
    | NormalFactor
    | NormalFactorDen
    | AnomalyLimit
    | TolerizeLimit
    | Enforcing

  /** The settings in declaration order. MONITORING is 0 and every auto()
      member is one more than the member before it, so the key of a setting
      is its position in this sequence. */
  const SETTINGS: seq<Setting> := [
    Monitoring, LogSequences, NormalWait, NormalFactor,
    NormalFactorDen, AnomalyLimit, TolerizeLimit, Enforcing
  ]

  /** The integer key of a setting: MONITORING = 0, then consecutive. */
  function SettingKey(s: Setting): (r: nat)
    ensures r < 8
    ensures r < |SETTINGS| && SETTINGS[r] == s
    ensures s == Monitoring <==> r == 0
    ensures s == Enforcing <==> r == 7
  {
    match s
    case Monitoring => 0
    case LogSequences => 1
    case NormalWait => 2
    case NormalFactor => 3
    case NormalFactorDen => 4
    case AnomalyLimit => 5
    case TolerizeLimit => 6
    case Enforcing => 7
  }

  /** `EBPH_SETTINGS(k)`: the member with key `k`, or None (the ValueError). */
  function SettingOfKey(k: int): (r: Option<Setting>)
    ensures r.Some? <==> 0 <= k < 8
    ensures r.Some? ==> SettingKey(r.value) == k && SETTINGS[k] == r.value
  {
    match k
    case 0 => Some(Monitoring)
    case 1 => Some(LogSequences)
    case 2 => Some(NormalWait)
    case 3 => Some(NormalFactor)
    case 4 => Some(NormalFactorDen)
    case 5 => Some(AnomalyLimit)
    case 6 => Some(TolerizeLimit)
    case 7 => Some(Enforcing)
    case _ => None
  }

  /** Keys and settings are in one-to-one correspondence (@unique). */
  lemma SettingKeyRoundTrip(s: Setting)
    ensures SettingOfKey(SettingKey(s)) == Some(s)
  {
  }

  // ---------------------------------------------------------------------
  // EBPH_LSM: an IntEnum numbered from 0 by auto(), LSM_MAX last
  // ---------------------------------------------------------------------

  /** The member names in declaration order. BPRM_CHECK_SECURITY is 0 and
      every auto() member is one more than the member before it, so the
      value of a member is its position in this sequence. */
  const LSM_MEMBERS: seq<string> := [
    "BPRM_CHECK_SECURITY", "TASK_ALLOC", "TASK_FREE", "TASK_SETPGID",
    "TASK_GETPGID", "TASK_GETSID", "TASK_SETNICE", "TASK_SETIOPRIO",
    "TASK_GETIOPRIO", "TASK_PRLIMIT", "TASK_SETRLIMIT", "TASK_SETSCHEDULER",
    "TASK_GETSCHEDULER", "TASK_MOVEMEMORY", "TASK_KILL", "TASK_PRCTL", "SB_STATFS",
    "SB_MOUNT", "SB_REMOUNT", "SB_UMOUNT", "SB_PIVOTROOT", "MOVE_MOUNT",
    "INODE_CREATE", "INODE_LINK", "INODE_SYMLINK", "INODE_MKDIR", "INODE_RMDIR",
    "INODE_MKNOD", "INODE_RENAME", "INODE_READLINK", "INODE_FOLLOW_LINK",
    "INODE_PERMISSION", "INODE_SETATTR", "INODE_GETATTR", "INODE_SETXATTR",
    "INODE_GETXATTR", "INODE_LISTXATTR", "INODE_REMOVEXATTR", "FILE_PERMISSION",
    "FILE_IOCTL", "MMAP_ADDR", "MMAP_FILE", "FILE_MPROTECT", "FILE_LOCK",
    "FILE_FCNTL", "FILE_SEND_SIGIOTASK", "FILE_RECEIVE", "UNIX_STREAM_CONNECT",
    "UNIX_MAY_SEND", "SOCKET_CREATE", "SOCKET_SOCKETPAIR", "SOCKET_BIND",
    "SOCKET_CONNECT", "SOCKET_LISTEN", "SOCKET_ACCEPT", "SOCKET_SENDMSG",
    "SOCKET_RECVMSG", "SOCKET_GETSOCKNAME", "SOCKET_GETPEERNAME",
    "SOCKET_GETSOCKOPT", "SOCKET_SETSOCKOPT", "SOCKET_SHUTDOWN", "TUN_DEV_CREATE",
    "TUN_DEV_ATTACH", "KEY_ALLOC", "KEY_FREE", "KEY_PERMISSION", "IPC_PERMISSION",
    "MSG_QUEUE_ASSOCIATE", "MSG_QUEUE_MSGCTL", "MSG_QUEUE_MSGSND",
    "MSG_QUEUE_MSGRCV", "SHM_ASSOCIATE", "SHM_SHMCTL", "SHM_SHMAT",
    "PTRACE_ACCESS_CHECK", "PTRACE_TRACEME", "CAPGET", "CAPSET", "CAPABLE",
    "QUOTACTL", "QUOTA_ON", "SYSLOG", "SETTIME", "VM_ENOUGH_MEMORY", "BPF",
    "BPF_MAP", "BPF_PROG", "PERF_EVENT_OPEN", "LSM_MAX"
  ]

  /** The value of the last member, LSM_MAX. */
  const LSM_MAX: int := |LSM_MEMBERS| - 1

  /** `NUM_LSM = int(EBPH_LSM.LSM_MAX)`: the number of real hooks, all
      members but the LSM_MAX sentinel. */
  const NUM_LSM: int := LSM_MAX

  /** There are 90 members and LSM_MAX is the last, with value 89; so every
      real hook (every member before it) has a value below NUM_LSM, which
      makes it a valid index of the profile matrices. */
  lemma LsmTable()
    ensures |LSM_MEMBERS| == 90 && LSM_MAX == 89 && NUM_LSM == 89
    ensures LSM_MEMBERS[LSM_MAX] == "LSM_MAX"
  {
  }

  /** `EBPH_LSM(num).name`: the name of the member whose value is `num`, or
      None where the enum raises ValueError. */
  function LsmMemberName(num: int): (r: Option<string>)
    ensures r.Some? <==> 0 <= num <= LSM_MAX
    ensures r.Some? ==> r.value == LSM_MEMBERS[num]
  {
    if 0 <= num < |LSM_MEMBERS| then Some(LSM_MEMBERS[num]) else None
  }

  function LowerChar(c: char): (r: char)
  {
    if 'A' <= c <= 'Z' then (c as int - 'A' as int + 'a' as int) as char else c
  }

  /** `str.lower()` on ASCII text: same length, no upper-case letter left,
      every other character kept. */
  function Lower(s: string): (r: string)
    ensures |r| == |s|
    ensures forall i :: 0 <= i < |r| ==> !('A' <= r[i] <= 'Z')
    ensures forall i :: 0 <= i < |r| ==> !('A' <= s[i] <= 'Z') ==> r[i] == s[i]
    ensures forall i :: 0 <= i < |r| && 'A' <= s[i] <= 'Z' ==> r[i] as int == s[i] as int + 32
  {
    seq(|s|, i requires 0 <= i < |s| => LowerChar(s[i]))
  }

  /** `EBPH_LSM.get_name(num)`: the lower-cased member name for every
      value from 0 to LSM_MAX, and 'empty' for every other integer. Total:
      it never raises. */
  function GetName(num: int): (r: string)
    ensures 0 <= num <= LSM_MAX ==> r == Lower(LSM_MEMBERS[num])
    ensures !(0 <= num <= LSM_MAX) ==> r == "empty"
    ensures forall i :: 0 <= i < |r| ==> !('A' <= r[i] <= 'Z')
  {
    match LsmMemberName(num)
    case Some(name) => Lower(name)
    case None => "empty"
  }

  /** LSM_MAX itself has a name ('lsm_max'), like every other member. */
  lemma GetNameOfLsmMax()
    ensures GetName(LSM_MAX) == "lsm_max"
  {
  }
}
