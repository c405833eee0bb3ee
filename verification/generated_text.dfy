/** What the generator's text promises as a whole: it is a program of the
    grammar, it reads back as the program the draws chose, and its
    statement count lies in the configured range. */
module GeneratedText {
  import opened Wrappers
  import opened RandomSource
  import opened Syntax
  import opened Generator
  import opened Parser

  lemma GeneratedProgramParses(src: seq<nat>)
    ensures GenerateRandomProgram(src).Some? <==> DrawProgram(src).Some?
    ensures GenerateRandomProgram(src).Some? ==>
      && ParseProgram(GenerateRandomProgram(src).value.value) == Some(DrawProgram(src).value.value)
      && WellFormedProgram(DrawProgram(src).value.value)
      && MinStatements <= |DrawProgram(src).value.value.statements| <= MaxStatements
  {
    if GenerateRandomProgram(src).Some? {
      ParseProgramInverse(DrawProgram(src).value.value);
    }
  }

  /** Two draw streams that yield the same text chose the same program. */
  lemma SameTextSameProgram(src1: seq<nat>, src2: seq<nat>)
    ensures GenerateRandomProgram(src1).Some? && GenerateRandomProgram(src2).Some?
      && GenerateRandomProgram(src1).value.value == GenerateRandomProgram(src2).value.value
      ==> DrawProgram(src1).value.value == DrawProgram(src2).value.value
  {
    GeneratedProgramParses(src1);
    GeneratedProgramParses(src2);
  }
}
