/** The verdict rule of the driving loop: given what the two toolchains
    (`go run`, and `gccgo` followed by the built binary) produced for one
    program, decide whether they disagree. Running the toolchains is
    outside the model; their results are inputs. */
module Differential {

  newtype byte = x: int | 0 <= x < 256

  /** What one toolchain produced: the captured standard output, or an
      error from building or running the program. */
  datatype RunResult = Output(stdout: seq<byte>) | Failed(error: string)

  datatype Verdict = Inconclusive | Discrepancy | NoDiscrepancy

  /** An error on either side makes the cycle inconclusive without looking
      at any output; otherwise the outputs are compared byte for byte. */
  function Classify(goRun: RunResult, gccgoRun: RunResult): (v: Verdict)
    ensures v == Inconclusive <==> goRun.Failed? || gccgoRun.Failed?
    ensures v == Discrepancy <==> goRun.Output? && gccgoRun.Output? && goRun.stdout != gccgoRun.stdout
    ensures v == NoDiscrepancy <==> goRun.Output? && gccgoRun.Output? && goRun.stdout == gccgoRun.stdout
  {
    if goRun.Failed? || gccgoRun.Failed? then Inconclusive
    else if goRun.stdout != gccgoRun.stdout then Discrepancy
    else NoDiscrepancy
  }

  /** Outputs are never consulted once a side has failed: replacing the
      other side by anything leaves the verdict unchanged. */
  lemma ErrorHidesOutputs(goRun: RunResult, gccgoRun: RunResult, other: RunResult)
    requires goRun.Failed? || gccgoRun.Failed?
    ensures goRun.Failed? ==> Classify(goRun, other) == Classify(goRun, gccgoRun)
    ensures gccgoRun.Failed? ==> Classify(other, gccgoRun) == Classify(goRun, gccgoRun)
  {
  }

  /** Neither toolchain is privileged: swapping them keeps the verdict. */
  lemma ClassifySymmetric(a: RunResult, b: RunResult)
    ensures Classify(a, b) == Classify(b, a)
  {
  }

  /** The error details never change the verdict. */
  lemma ErrorDetailsIrrelevant(e1: string, e2: string, r: RunResult)
    ensures Classify(Failed(e1), r) == Classify(Failed(e2), r)
    ensures Classify(r, Failed(e1)) == Classify(r, Failed(e2))
  {
  }
}
