/** Instructions of an O3 pipeline trace and the command-line bounds of the viewer. */
module PipeInst {

  datatype Stage = Decode | Rename | Dispatch | Issue | Complete | Store

  /** One traced instruction. `fetch` and `retire` are always recorded before it is queued;
      the ticks of the other stages are recorded as their lines are seen. `text` stands for
      the program counter and the disassembly. */
  datatype Inst = Inst(sn: int, fetch: int, retire: int, others: map<Stage, int>, text: string)

  /** Bounds that are not positive are absent. */
  datatype Options = Options(
    tickStart: int, tickStop: int, snStart: int, snStop: int,
    committedOnly: bool, cycleTime: int, storeCompletions: bool)

  const BY_SN: Inst -> int := (x: Inst) => x.sn

  /** The instructions that `print_insts` does not filter out. */
  predicate Wanted(o: Options, x: Inst) {
    && !(o.snStart > 0 && x.sn < o.snStart)
    && !(o.snStop > 0 && x.sn > o.snStop)
    && !(o.tickStart > 0 && x.fetch < o.tickStart)
    && !(o.tickStop > 0 && x.fetch > o.tickStop)
    && !(o.committedOnly && x.retire == 0)
  }

  function Wants(o: Options): Inst -> bool {
    (x: Inst) => Wanted(o, x)
  }
}
