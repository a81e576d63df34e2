/**
 * What both front ends share about the upload form: the file checks of
 * `handleFileSelect` and whitespace trimming of the text fields.
 */
module Forms {
  import opened Common
  import opened Listing

  /** `10 * 1024 * 1024`: the largest accepted file, in bytes. */
  const MaxFileSize: nat := 10 * 1024 * 1024

  /** A file chosen in the picker or dropped on the upload area. */
  datatype FileInfo = FileInfo(name: string, mimeType: string, size: nat)

  /** `handleFileSelect`'s checks: exactly the PDF type and at most 10 MiB. */
  predicate AcceptsFile(f: FileInfo)
  {
    f.mimeType == PdfType && f.size <= MaxFileSize
  }

  /** The upload form's fields as the input handlers leave them. */
  datatype Form = Form(name: string, category: string, issuer: string,
                       month: string, day: string, year: string, notes: string)

  predicate IsSpace(c: char)
  {
    c == ' ' || '\t' <= c <= '\r'
  }

  /** `trim()`: drops whitespace from both ends; empty exactly when the field is
      blank, and otherwise starting and ending with a non-whitespace character. */
  function Trim(s: string): (r: string)
    ensures |r| <= |s|
    ensures r == [] <==> forall i :: 0 <= i < |s| ==> IsSpace(s[i])
    ensures r != [] ==> !IsSpace(r[0]) && !IsSpace(r[|r| - 1])
  {
    if s != [] && IsSpace(s[0]) then Trim(s[1..])
    else if s != [] && IsSpace(s[|s| - 1]) then Trim(s[..|s| - 1])
    else s
  }

  /** `t` is `s` with the whitespace before position `k` and after `t` removed. */
  predicate TrimmedAt(s: string, t: string, k: int)
  {
    OccursAt(s, t, k) &&
    (forall i :: 0 <= i < k ==> IsSpace(s[i])) &&
    (forall i :: k + |t| <= i < |s| ==> IsSpace(s[i]))
  }

  /** `trim()` removes whitespace and nothing else: the trimmed text sits in the
      field with only whitespace before and after it. */
  lemma {:induction false} TrimIsInfix(s: string)
    ensures exists k :: TrimmedAt(s, Trim(s), k)
  {
    if s != [] && IsSpace(s[0]) {
      TrimIsInfix(s[1..]);
      var k :| TrimmedAt(s[1..], Trim(s[1..]), k);
      TrimmedAfterFirst(s, Trim(s), k);
    } else if s != [] && IsSpace(s[|s| - 1]) {
      TrimIsInfix(s[..|s| - 1]);
      var k :| TrimmedAt(s[..|s| - 1], Trim(s[..|s| - 1]), k);
      TrimmedBeforeLast(s, Trim(s), k);
    } else {
      assert s[0..|s|] == s;
      assert TrimmedAt(s, Trim(s), 0);
    }
  }

  lemma TrimmedAfterFirst(s: string, t: string, k: int)
    requires s != [] && IsSpace(s[0]) && TrimmedAt(s[1..], t, k)
    ensures TrimmedAt(s, t, k + 1)
  {
    assert s[1..][k..k + |t|] == s[k + 1..k + 1 + |t|];
    forall i | 1 <= i < k + 1
      ensures IsSpace(s[i])
    {
      assert s[i] == s[1..][i - 1];
    }
    forall i | k + 1 + |t| <= i < |s|
      ensures IsSpace(s[i])
    {
      assert s[i] == s[1..][i - 1];
    }
  }

  lemma TrimmedBeforeLast(s: string, t: string, k: int)
    requires s != [] && IsSpace(s[|s| - 1]) && TrimmedAt(s[..|s| - 1], t, k)
    ensures TrimmedAt(s, t, k)
  {
    assert s[..|s| - 1][k..k + |t|] == s[k..k + |t|];
    forall i | 0 <= i < k
      ensures IsSpace(s[i])
    {
      assert s[i] == s[..|s| - 1][i];
    }
    forall i | k + |t| <= i < |s| - 1
      ensures IsSpace(s[i])
    {
      assert s[i] == s[..|s| - 1][i];
    }
  }
}
