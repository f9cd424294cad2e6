/**
 * What the map and high-score readers see of `java.util.Scanner`: a line
 * is split into tokens that either read as an `int` or do not, and the
 * file loop `while (hasNext()) nextLine()` stops once only whitespace is
 * left in the file.
 */
module Scanning {

  datatype Token = Int(n: int) | Word(text: string)

  predicate IsSpace(c: char) {
    c == ' ' || c == '\t' || c == '\n' || c == '\r' || c == 12 as char || c == 11 as char
  }

  /** A line with no token on it. */
  predicate Blank(line: string) {
    forall i :: 0 <= i < |line| ==> IsSpace(line[i])
  }

  /** `hasNext()` on a file positioned at the start of `lines`. */
  predicate HasNext(lines: seq<string>) {
    exists k :: 0 <= k < |lines| && !Blank(lines[k])
  }

  /** A token list holding integers only. */
  predicate AllInts(toks: seq<Token>) {
    forall i :: 0 <= i < |toks| ==> toks[i].Int?
  }
}
