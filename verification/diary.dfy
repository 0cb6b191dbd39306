/**
  Saving a diary entry (app.js, `diary`, the "Save 💾" button): the draft is
  trimmed, an empty draft is refused, and the list keeps newest first with
  at most one entry dropped from the end once it passes 50.
 */
module Diary {
  import opened Learning

  const MaxEntries := 50

  /**
    The characters `String.prototype.trim` strips: the ECMAScript WhiteSpace
    (tab, vertical tab, form feed, the Unicode space separators, the byte order
    mark) and LineTerminator characters.
   */
  predicate IsJsSpace(c: char) {
    var n := c as int;
    || n == 0x09 || n == 0x0A || n == 0x0B || n == 0x0C || n == 0x0D
    || n == 0x20 || n == 0xA0 || n == 0x1680
    || (0x2000 <= n <= 0x200A)
    || n == 0x2028 || n == 0x2029 || n == 0x202F || n == 0x205F
    || n == 0x3000 || n == 0xFEFF
  }

  /** Drops the leading white space: what is left is a suffix, and all that was dropped is white space. */
  function TrimStart(s: string): (r: string)
    ensures |r| <= |s| && r == s[|s| - |r|..]
    ensures forall i | 0 <= i < |s| - |r| :: IsJsSpace(s[i])
    ensures |r| > 0 ==> !IsJsSpace(r[0])
    decreases |s|
  {
    if |s| > 0 && IsJsSpace(s[0]) then TrimStart(s[1..]) else s
  }

  /** Drops the trailing white space: what is left is a prefix, and all that was dropped is white space. */
  function TrimEnd(s: string): (r: string)
    ensures |r| <= |s| && r == s[..|r|]
    ensures forall i | |r| <= i < |s| :: IsJsSpace(s[i])
    ensures |r| > 0 ==> !IsJsSpace(r[|r| - 1])
    decreases |s|
  {
    if |s| > 0 && IsJsSpace(s[|s| - 1]) then TrimEnd(s[..|s| - 1]) else s
  }

  /** `String.prototype.trim`. */
  function Trim(s: string): (r: string)
    ensures |r| > 0 ==> !IsJsSpace(r[0]) && !IsJsSpace(r[|r| - 1])
  {
    TrimEnd(TrimStart(s))
  }

  /**
    `Trim` cuts a slice out of its input with only white space around it,
    and comes out empty exactly when the input is all white space.
   */
  lemma TrimSlice(s: string)
    ensures exists i, j | 0 <= i <= j <= |s| ::
      (Trim(s) == s[i..j]
      && (forall k | 0 <= k < i :: IsJsSpace(s[k]))
      && (forall k | j <= k < |s| :: IsJsSpace(s[k])))
    ensures |Trim(s)| == 0 <==> forall k | 0 <= k < |s| :: IsJsSpace(s[k])
  {
    var a := TrimStart(s);
    var r := TrimEnd(a);
    var i := |s| - |a|;
    var j := i + |r|;
    assert r == s[i..j];
    forall k | j <= k < |s|
      ensures IsJsSpace(s[k])
    {
      assert s[k] == a[k - i];
    }
    if |r| > 0 {
      assert !IsJsSpace(s[i]);
    }
  }

  /**
    Puts `e` at the front of the list; a list that thereby grows past 50
    loses its oldest (last) entry.
   */
  function PushEntry(entries: seq<DiaryEntry>, e: DiaryEntry): (r: seq<DiaryEntry>)
    ensures 1 <= |r| <= |entries| + 1 && r[0] == e
    ensures r[1..] == entries[..|r| - 1]
    ensures |entries| < MaxEntries ==> |r| == |entries| + 1
    ensures |entries| >= MaxEntries ==> |r| == |entries|
    ensures |entries| <= MaxEntries ==> |r| <= MaxEntries
  {
    var pushed := [e] + entries;
    if |pushed| > MaxEntries then pushed[..|pushed| - 1] else pushed
  }

  datatype SaveResult = SaveResult(progress: Progress, draft: string, toast: string)

  /**
    The Save button with timestamp `todayISO`: a draft with text is stored
    trimmed at the front of the list and cleared; otherwise nothing is stored.
   */
  function SaveDiary(p: Progress, draft: string, todayISO: string): (r: SaveResult)
    ensures |Trim(draft)| == 0 ==> r.progress == p && r.draft == draft
    ensures |Trim(draft)| > 0 ==>
      (r.draft == "" && r.progress == p.(diaryEntries := PushEntry(p.diaryEntries, DiaryEntry(todayISO, Trim(draft)))))
  {
    var text := Trim(draft);
    if |text| > 0 then
      SaveResult(p.(diaryEntries := PushEntry(p.diaryEntries, DiaryEntry(todayISO, text))), "", "Diary saved!")
    else
      SaveResult(p, draft, "Write something first.")
  }
}
