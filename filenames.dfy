/** The upload filename check `allowed_file`: a name is accepted when the part
    after its last '.' is "pdf" in any letter case. */
module Filenames {

  /** Python's `s.rsplit(sep, 1)`: the whole string when `sep` does not occur,
      otherwise the text before and the text after the LAST occurrence. */
  function RSplitLast(s: string, sep: char): (parts: seq<string>)
    ensures |parts| == 1 || |parts| == 2
    ensures |parts| == 1 <==> sep !in s
    ensures |parts| == 1 ==> parts[0] == s
    ensures |parts| == 2 ==> s == parts[0] + [sep] + parts[1] && sep !in parts[1]
    decreases |s|
  {
    if |s| == 0 then [s]
    else
      var init, last := s[..|s| - 1], s[|s| - 1];
      assert s == init + [last];
      if last == sep then [init, ""]
      else
        var p := RSplitLast(init, sep);
        if |p| == 1 then [s] else [p[0], p[1] + [last]]
  }

  /** `str.lower()` on one character; only ASCII letters are mapped. An
      upper-case letter becomes the lower-case letter at the same place in
      the alphabet, and every other character is kept. */
  function LowerChar(c: char): (r: char)
    ensures 'A' <= c <= 'Z' ==> 'a' <= r <= 'z' && r as int - 'a' as int == c as int - 'A' as int
    ensures !('A' <= c <= 'Z') ==> r == c
    ensures !('A' <= r <= 'Z')
  {
    if 'A' <= c <= 'Z' then (c as int + 32) as char else c
  }

  /** `str.lower()` on ASCII: same length, each character lowered, and no
      upper-case ASCII letter left. */
  function Lower(s: string): (r: string)
    ensures |r| == |s|
    ensures forall i :: 0 <= i < |s| ==> r[i] == LowerChar(s[i])
    ensures forall i :: 0 <= i < |r| ==> !('A' <= r[i] <= 'Z')
  {
    seq(|s|, i requires 0 <= i < |s| => LowerChar(s[i]))
  }

  /** quiz-generator-api.py's `allowed_file`; the `'.' in filename` test is
      evaluated first, so the index `[1]` is only taken when it exists. The
      check holds exactly when the name ends in ".pdf", letters in any case. */
  predicate AllowedFile(filename: string)
    ensures AllowedFile(filename) <==> EndsWithPdfExtension(filename)
  {
    PdfTailIff(filename);
    '.' in filename && Lower(RSplitLast(filename, '.')[1]) == "pdf"
  }

  /** Reference reading of the same check, written without splitting: the name
      ends with '.', then p, d and f, each in either case. */
  predicate EndsWithPdfExtension(filename: string)
  {
    var n := |filename|;
    n >= 4 && filename[n - 4] == '.' &&
    filename[n - 3] in "pP" && filename[n - 2] in "dD" && filename[n - 1] in "fF"
  }

  /** The split at the last separator is the only split whose tail is free of it. */
  lemma {:induction false} RSplitLastUnique(s: string, sep: char, a: string, b: string)
    requires s == a + [sep] + b && sep !in b
    ensures RSplitLast(s, sep) == [a, b]
  {
    var p := RSplitLast(s, sep);
    var p0, p1 := p[0], p[1];
    // Both splits put a separator at their cut and none after it.
    forall k | |p0| < k < |s| ensures s[k] != sep {
      assert s[k] == p1[k - |p0| - 1];
    }
    forall k | |a| < k < |s| ensures s[k] != sep {
      assert s[k] == b[k - |a| - 1];
    }
    assert s[|a|] == sep && s[|p0|] == sep;
    assert |p0| == |a|;
    assert p0 == s[..|a|] == a;
    assert p1 == s[|a| + 1..] == b;
  }

  /** The strings that lower to "pdf" are p, d, f in any letter case. */
  lemma LowerIsPdf(t: string)
    requires Lower(t) == "pdf"
    ensures |t| == 3 && t[0] in "pP" && t[1] in "dD" && t[2] in "fF"
  {
    assert |Lower(t)| == |t|;
    assert LowerChar(t[0]) == 'p' && LowerChar(t[1]) == 'd' && LowerChar(t[2]) == 'f' by {
      assert Lower(t)[0] == 'p' && Lower(t)[1] == 'd' && Lower(t)[2] == 'f';
    }
  }

  /** A tail that lowers to "pdf" is the last three characters, after a '.'. */
  lemma PdfTailEndsName(filename: string)
    requires '.' in filename && Lower(RSplitLast(filename, '.')[1]) == "pdf"
    ensures EndsWithPdfExtension(filename)
  {
    var n := |filename|;
    var p := RSplitLast(filename, '.');
    var head, tail := p[0], p[1];
    assert filename == head + ['.'] + tail;
    LowerIsPdf(tail);
    assert filename[n - 4] == '.';
    assert filename[n - 3] == tail[0] && filename[n - 2] == tail[1] && filename[n - 1] == tail[2];
  }

  /** A name ending in ".pdf" splits at that '.', and its tail lowers to "pdf". */
  lemma NameEndsInPdfTail(filename: string)
    requires EndsWithPdfExtension(filename)
    ensures '.' in filename && Lower(RSplitLast(filename, '.')[1]) == "pdf"
  {
    var n := |filename|;
    var a, b := filename[..n - 4], filename[n - 3..];
    assert filename == a + ['.'] + b;
    assert '.' !in b by {
      assert b == [filename[n - 3], filename[n - 2], filename[n - 1]];
    }
    RSplitLastUnique(filename, '.', a, b);
    assert '.' in filename by { assert filename[n - 4] == '.'; }
    assert Lower(b) == "pdf";
  }

  /** The text after the last '.' lowers to "pdf" exactly when the name ends
      in ".pdf", letters in any case. */
  lemma PdfTailIff(filename: string)
    ensures ('.' in filename && Lower(RSplitLast(filename, '.')[1]) == "pdf")
            <==> EndsWithPdfExtension(filename)
  {
    if '.' in filename && Lower(RSplitLast(filename, '.')[1]) == "pdf" {
      PdfTailEndsName(filename);
    }
    if EndsWithPdfExtension(filename) {
      NameEndsInPdfTail(filename);
    }
  }

  /** The edge cases: the letter case of the extension does not matter, a bare
      extension is accepted, while a name without a dot or with ".pdf" in the
      middle is refused. */
  lemma AllowedFileExamples()
    ensures AllowedFile("x.PDF") && AllowedFile(".pdf") && AllowedFile("a.b.Pdf")
    ensures !AllowedFile("pdf") && !AllowedFile("a.pdf.txt") && !AllowedFile("report.pdfx")
    ensures !AllowedFile("") && !AllowedFile("pdf.")
  {
  }
}
