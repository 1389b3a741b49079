/** Constants, process records and state enumeration of proc.h, plus the small
    value types the process table works with. */
module ProcDefs {

  /** Scheduling policy identifiers. */
  const SP_RRS := 1
  const SP_PS := 2
  const SP_EPS := 3

  /** Priority given to every newly created process. */
  const NP_PRIORITY := 5

  const LLONG_MAX := 9223372036854775807
  /** Every TQ_THRESHOLD-th extended-priority decision is an aging decision. */
  const TQ_THRESHOLD := 100
  /** Accumulator value every process gets when round-robin becomes active. */
  const RRS_ACC_VAL := 0

  /** Identifiers of the performance fields, as passed to update_pref_field. */
  const CTIME := 1
  const TTIME := 2
  const STIME := 3
  const RETIME := 4
  const RUTIME := 5

  /** Number of slots of the process table (NPROC of xv6's param.h). */
  const NPROC: nat := 64

  datatype Option<T> = None | Some(value: T)

  datatype ProcState = Unused | Embryo | Sleeping | Runnable | Running | Zombie

  /** A sleep channel: the null channel, the address of a process-table slot
      (wait and exit use the process itself as channel), or any other kernel
      address. */
  datatype Chan = NullChan | ProcChan(slot: nat) | OtherChan(addr: nat)

  /** The scheduling-relevant part of struct proc. A process is identified by
      its slot index in the table, so `parent` is a slot index or None (null). */
  datatype Proc = Proc(
    state: ProcState,
    pid: int,
    parent: Option<nat>,
    chan: Chan,
    killed: bool,
    status: int,
    accumulator: int,
    priority: int,
    lastTq: int,
    ctime: int,
    ttime: int,
    stime: int,
    retime: int,
    rutime: int)

  /** A slot of the statically zeroed table. */
  const EMPTY_PROC := Proc(Unused, 0, None, NullChan, false, 0, 0, 0, 0, 0, 0, 0, 0, 0)

  /** struct perf: the counters wait_stat copies out, each a 32-bit int. */
  datatype Perf = Perf(ctime: int, ttime: int, stime: int, retime: int, rutime: int)

  const INT_MIN: int := -0x8000_0000
  const INT_MAX: int := 0x7fff_ffff

  /** The conversion of a long long counter to int, taken modulo 2^32 as the
      compiler's two's-complement targets do. */
  function Int32(x: int): (r: int)
    ensures INT_MIN <= r <= INT_MAX
    ensures INT_MIN <= x <= INT_MAX ==> r == x
    ensures (x - r) % 0x1_0000_0000 == 0
  {
    var m := x % 0x1_0000_0000;
    if m > INT_MAX then m - 0x1_0000_0000 else m
  }

  /** The struct perf wait_stat fills from a record's long long counters. */
  function PerfOf(p: Proc): Perf
  {
    Perf(Int32(p.ctime), Int32(p.ttime), Int32(p.stime), Int32(p.retime), Int32(p.rutime))
  }

  /** The channel a process pointer denotes when used as a sleep channel. */
  function ChanOf(slot: Option<nat>): Chan
  {
    if slot.None? then NullChan else ProcChan(slot.value)
  }
}
