/** The download filename taken from a `content-disposition` header with the
    pattern `/filename=(.*)/`: the first `filename=` in the value, then every
    character up to the first line terminator (what `.` does not match).
    Quoting, `filename*=` and the other rules of section 4.1 of RFC 6266 are
    not applied. The percent-decoding step is a parameter: it may fail, as
    `decodeURIComponent` throws on a malformed escape. */
module FileName {
  import opened Wrappers
  import opened Types

  const DispositionKey: string := "content-disposition"
  const FileNameToken: string := "filename="
  const DefaultFileName: string := "download"

  /** The characters a regular-expression `.` does not match. */
  predicate IsLineTerminator(c: char) {
    c == '\n' || c == '\r' || c == '\U{2028}' || c == '\U{2029}'
  }

  /** `filename=` occurs in `s` at index `i`. */
  predicate TokenAt(s: string, i: nat) {
    i + |FileNameToken| <= |s| && s[i..i + |FileNameToken|] == FileNameToken
  }

  /** The leftmost index at or after `from` where the token occurs. */
  function FindToken(s: string, from: nat): (r: Option<nat>)
    requires from <= |s|
    ensures r.Some? ==> from <= r.value && TokenAt(s, r.value)
    ensures r.Some? ==> forall j :: from <= j < r.value ==> !TokenAt(s, j)
    ensures r.None? ==> forall j :: from <= j <= |s| ==> !TokenAt(s, j)
    decreases |s| - from
  {
    if from + |FileNameToken| > |s| then None
    else if s[from..from + |FileNameToken|] == FileNameToken then Some(from)
    else FindToken(s, from + 1)
  }

  /** The index of the first line terminator at or after `from`, or the end. */
  function LineEnd(s: string, from: nat): (e: nat)
    requires from <= |s|
    ensures from <= e <= |s|
    ensures e < |s| ==> IsLineTerminator(s[e])
    ensures forall j :: from <= j < e ==> !IsLineTerminator(s[j])
    decreases |s| - from
  {
    if from == |s| || IsLineTerminator(s[from]) then from else LineEnd(s, from + 1)
  }

  /** The pattern's capture group, or None when the value does not match:
      a match is the reference capture, and there is none exactly when the
      token occurs nowhere. */
  function Capture(value: string): (r: Option<string>)
    ensures r.Some? ==> IsCapture(value, r.value)
    ensures r.None? <==> forall j :: 0 <= j <= |value| ==> !TokenAt(value, j)
  {
    match FindToken(value, 0)
    case None => None
    case Some(i) =>
      var k := i + |FileNameToken|;
      RestOfLineUpToEnd(value, k);
      assert FirstTokenAt(value, i);
      Some(value[k..LineEnd(value, k)])
  }

  /** Reference reading of the pattern: `c` is what follows the leftmost
      token, cut at (and not including) the first line terminator. */
  ghost predicate IsCapture(s: string, c: string) {
    exists i: nat :: FirstTokenAt(s, i) && RestOfLine(s, i + |FileNameToken|, c)
  }

  ghost predicate FirstTokenAt(s: string, i: nat) {
    TokenAt(s, i) && forall j :: 0 <= j < i ==> !TokenAt(s, j)
  }

  /** `c` starts at `k`, holds no line terminator, and ends at one or at the end of `s`. */
  ghost predicate RestOfLine(s: string, k: nat, c: string) {
    && k + |c| <= |s|
    && s[k..k + |c|] == c
    && (forall j :: 0 <= j < |c| ==> !IsLineTerminator(c[j]))
    && (k + |c| == |s| || IsLineTerminator(s[k + |c|]))
  }

  /** The text from `k` up to the line end is a rest-of-line capture. */
  lemma RestOfLineUpToEnd(s: string, k: nat)
    requires k <= |s|
    ensures RestOfLine(s, k, s[k..LineEnd(s, k)])
  {
    var c := s[k..LineEnd(s, k)];
    forall j | 0 <= j < |c| ensures !IsLineTerminator(c[j]) {
      assert c[j] == s[k + j];
    }
  }

  /** The reference capture is what `Capture` returns: it is unique. */
  lemma CaptureComplete(s: string, c: string)
    requires IsCapture(s, c)
    ensures Capture(s) == Some(c)
  {
    var i: nat :| FirstTokenAt(s, i) && RestOfLine(s, i + |FileNameToken|, c);
    FindTokenFirst(s, 0, i);
    LineEndAt(s, i + |FileNameToken|, c);
  }

  /** The search stops at the first occurrence at or after `from`. */
  lemma {:induction false} FindTokenFirst(s: string, from: nat, i: nat)
    requires from <= i && TokenAt(s, i)
    requires forall j :: from <= j < i ==> !TokenAt(s, j)
    ensures FindToken(s, from) == Some(i)
    decreases i - from
  {
    if from < i {
      assert !TokenAt(s, from);
      FindTokenFirst(s, from + 1, i);
    }
  }

  /** The line end after `k` is where the rest-of-line capture `c` stops. */
  lemma {:induction false} LineEndAt(s: string, k: nat, c: string)
    requires RestOfLine(s, k, c)
    ensures LineEnd(s, k) == k + |c|
    decreases |c|
  {
    if |c| > 0 {
      assert s[k] == c[0];
      assert RestOfLine(s, k + 1, c[1..]) by {
        assert s[k + 1..k + 1 + |c[1..]|] == c[1..];
        forall j | 0 <= j < |c[1..]| ensures !IsLineTerminator(c[1..][j]) {
          assert c[1..][j] == c[j + 1];
        }
      }
      LineEndAt(s, k + 1, c[1..]);
    }
  }

  /** A prefix without the letter `f` cannot hold the start of the token. */
  lemma NoTokenInPrefix(p: string, rest: string)
    requires 'f' !in p
    ensures forall j :: 0 <= j < |p| ==> !TokenAt(p + rest, j)
  {
    forall j | 0 <= j < |p| ensures !TokenAt(p + rest, j) {
      assert (p + rest)[j] == p[j] && p[j] in p;
      if j + |FileNameToken| <= |p + rest| {
        assert (p + rest)[j..j + |FileNameToken|][0] == (p + rest)[j];
      }
    }
  }

  /** The name `download` saves under: the default when the header is
      missing or empty, when the pattern does not match, or when the capture
      is empty; otherwise the decoded capture (None when decoding fails). */
  function FileNameFromHeaders(headers: Headers, decode: string -> Option<string>): (r: Option<string>)
    ensures (DispositionKey !in headers || headers[DispositionKey] == "") ==> r == Some(DefaultFileName)
    ensures DispositionKey in headers && (forall j :: 0 <= j <= |headers[DispositionKey]| ==> !TokenAt(headers[DispositionKey], j)) ==>
      r == Some(DefaultFileName)
    ensures DispositionKey in headers && IsCapture(headers[DispositionKey], "") ==> r == Some(DefaultFileName)
  {
    if DispositionKey !in headers || headers[DispositionKey] == "" then Some(DefaultFileName)
    else
      var value := headers[DispositionKey];
      assert IsCapture(value, "") ==> Capture(value) == Some("") by {
        if IsCapture(value, "") { CaptureComplete(value, ""); }
      }
      match Capture(value)
      case Some(c) => if c == "" then Some(DefaultFileName) else decode(c)
      case None => Some(DefaultFileName)
  }

  /** A header whose reference capture is a non-empty `c` names the file
      `decode(c)`, whatever decoding gives. */
  lemma NameOfCapture(headers: Headers, decode: string -> Option<string>, c: string)
    requires DispositionKey in headers && IsCapture(headers[DispositionKey], c) && c != ""
    ensures FileNameFromHeaders(headers, decode) == decode(c)
  {
    CaptureComplete(headers[DispositionKey], c);
  }

  /** A typical header: the name after `filename=` is decoded and used. */
  lemma PlainAttachmentName(decode: string -> Option<string>)
    ensures FileNameFromHeaders(map[DispositionKey := "attachment; filename=report.csv"], decode)
            == decode("report.csv")
  {
    var p := "attachment; ";
    var s := p + FileNameToken + "report.csv";
    assert s == "attachment; filename=report.csv";
    NoTokenInPrefix(p, FileNameToken + "report.csv");
    assert p + (FileNameToken + "report.csv") == s;
    assert TokenAt(s, |p|) by { assert s[|p|..|p| + |FileNameToken|] == FileNameToken; }
    assert FirstTokenAt(s, |p|);
    assert RestOfLine(s, |p| + |FileNameToken|, "report.csv") by {
      assert s[|p| + |FileNameToken|..] == "report.csv";
    }
    CaptureComplete(s, "report.csv");
  }

  /** The pattern ignores quoting: a quoted name keeps its quotes, and
      whatever follows on the same line stays in the capture. */
  lemma QuotesAndParametersAreKept()
    ensures Capture("filename=\"a.txt\"; size=3") == Some("\"a.txt\"; size=3")
  {
    var c := "\"a.txt\"; size=3";
    var s := FileNameToken + c;
    assert s == "filename=\"a.txt\"; size=3";
    assert TokenAt(s, 0) by { assert s[..|FileNameToken|] == FileNameToken; }
    assert FirstTokenAt(s, 0);
    assert RestOfLine(s, |FileNameToken|, c) by {
      assert s[|FileNameToken|..] == c;
    }
    CaptureComplete(s, c);
  }
}
