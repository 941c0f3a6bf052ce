/**
 * The `/mr-patchnotes` command: the patch list is taken out of whichever shape
 * the API answered with, sorted in place by a date comparator, cut to the first
 * `count` entries, and each entry becomes a numbered field whose summary is the
 * patch text with its HTML tags stripped and shortened to 250 characters.
 */
module MrPatchnotes {
  import opened JsValues

  /** One patch note. Absent text fields are `""`. `dateMs` is the time that
      `new Date(date)` denotes, and matters only when `date` is not empty. */
  datatype Patch = Patch(title: string, date: string, dateMs: int, kind: string,
                         previewText: string, fullContent: string)

  /** The API body: an array of patches, an object whose `formatted_patches` is
      an array (`Some`) or is not (`None`), or anything else. */
  datatype PatchResponse = PatchArray(items: seq<Patch>) | PatchObject(formattedPatches: Option<seq<Patch>>) | OtherShape

  datatype PatchFetch = FetchFailed | Received(body: PatchResponse)

  /** One embed field: its name is `${number}. ${title}${datePart}` and its value
      `${kind}\n${summary}`. */
  datatype Entry = Entry(number: nat, title: string, datePart: string, kind: string, summary: string)

  datatype PatchReply = CouldNotFetch | NoPatchNotes | Embed(entries: seq<Entry>)

  const DefaultCount := 3
  const SummaryLimit := 250
  const DefaultKind := "Patch Notes"
  const NoSummary := "No summary provided by the API."
  const Ellipsis := "..."

  // ---------------------------------------------------------------- stripHtml

  /** The first position of `c` in `s`. */
  function FirstIndex(s: string, c: char): (k: nat)
    requires c in s
    ensures k < |s| && s[k] == c && c !in s[..k]
  {
    if s[0] == c then 0 else
      var k := FirstIndex(s[1..], c);
      assert s[..k + 1] == [s[0]] + s[1..][..k];
      k + 1
  }

  /** `str.replace(/<[^>]*>/g, "")`: scanning left to right, a `<` that has a `>`
      somewhere after it starts a match running to the first such `>`, and the
      match is deleted; every other character is kept. */
  function StripHtml(s: string): string
    decreases |s|
  {
    if s == [] then []
    else if s[0] == '<' && '>' in s[1..] then StripHtml(s[FirstIndex(s, '>') + 1..])
    else [s[0]] + StripHtml(s[1..])
  }

  /** No `<` is followed, anywhere later, by a `>`: nothing is left to match. */
  predicate NoTag(s: string) {
    forall i, j :: 0 <= i < j < |s| && s[i] == '<' ==> s[j] != '>'
  }

  /** Stripping only deletes characters: the output is a subsequence of the input. */
  lemma {:induction false} StripHtmlSubsequence(s: string)
    ensures IsSubsequence(StripHtml(s), s)
    decreases |s|
  {
    if s != [] {
      if s[0] == '<' && '>' in s[1..] {
        var k := FirstIndex(s, '>') + 1;
        assert StripHtml(s) == StripHtml(s[k..]);
        StripHtmlSubsequence(s[k..]);
        SubsequenceOfSuffix(StripHtml(s[k..]), s, k);
      } else {
        var rest := StripHtml(s[1..]);
        assert StripHtml(s) == [s[0]] + rest;
        StripHtmlSubsequence(s[1..]);
        SubsequenceCons(s[0], rest, s[1..]);
        assert [s[0]] + s[1..] == s;
      }
    }
  }

  /** The output contains no tag left to strip. */
  lemma {:induction false} StripHtmlNoTag(s: string)
    ensures NoTag(StripHtml(s))
    decreases |s|
  {
    if s != [] {
      if s[0] == '<' && '>' in s[1..] {
        StripHtmlNoTag(s[FirstIndex(s, '>') + 1..]);
      } else {
        var rest := StripHtml(s[1..]);
        StripHtmlNoTag(s[1..]);
        if s[0] == '<' {
          StripHtmlSubsequence(s[1..]);
          SubsequenceElements(rest, s[1..]);
          assert '>' !in rest;
        }
        var r := [s[0]] + rest;
        forall i, j | 0 <= i < j < |r| && r[i] == '<'
          ensures r[j] != '>'
        {
          if i > 0 {
            assert r[i] == rest[i - 1] && r[j] == rest[j - 1];
          } else {
            assert r[j] in rest;
          }
        }
      }
    }
  }

  /** A string with no tag is its own stripped form. */
  lemma {:induction false} StripHtmlFixpoint(t: string)
    requires NoTag(t)
    ensures StripHtml(t) == t
    decreases |t|
  {
    if t != [] {
      if t[0] == '<' {
        assert '>' !in t[1..] by {
          forall j | 0 <= j < |t[1..]| ensures t[1..][j] != '>' {
            assert t[1..][j] == t[j + 1];
          }
        }
      }
      assert NoTag(t[1..]) by {
        forall i, j | 0 <= i < j < |t[1..]| && t[1..][i] == '<' ensures t[1..][j] != '>' {
          assert t[1..][i] == t[i + 1] && t[1..][j] == t[j + 1];
        }
      }
      StripHtmlFixpoint(t[1..]);
      assert [t[0]] + t[1..] == t;
    }
  }

  /** Stripping twice is stripping once. */
  lemma StripHtmlIdempotent(s: string)
    ensures StripHtml(StripHtml(s)) == StripHtml(s)
  {
    StripHtmlNoTag(s);
    StripHtmlFixpoint(StripHtml(s));
  }

  /** Text without a `<` comes back unchanged. */
  lemma StripHtmlWithoutAngle(s: string)
    requires '<' !in s
    ensures StripHtml(s) == s
  {
    StripHtmlFixpoint(s);
  }

  /** A tag is deleted, while a `<` with no `>` after it is kept. */
  lemma StripHtmlExample()
    ensures StripHtml("<i>x") == "x"
    ensures StripHtml("x<") == "x<"
  {
    assert "<i>x"[1..][1] == '>';
    assert FirstIndex("<i>x", '>') == 2 by {
      assert "<i>x"[1..][1..] == ">x";
    }
    assert "<i>x"[3..] == "x";
    StripHtmlWithoutAngle("x");
    assert "x<"[1..] == "<";
    assert StripHtml("<") == "<" by {
      assert "<"[1..] == [];
    }
  }

  // ---------------------------------------------------------------- shorten, slice

  /** `s.slice(0, end)`: a negative `end` counts from the back, and the result is
      always a prefix of `s`. */
  function SliceTo<T>(s: seq<T>, end: int): (r: seq<T>)
    ensures 0 <= end <= |s| ==> |r| == end
    ensures end > |s| ==> |r| == |s|
    ensures end < 0 ==> |r| == if |s| + end < 0 then 0 else |s| + end
    ensures r == s[..|r|]
  {
    var stop := if end < 0 then (if |s| + end < 0 then 0 else |s| + end)
                else if end > |s| then |s| else end;
    s[..stop]
  }

  /** `shorten(text, max)`. */
  function Shorten(text: string, max: int): (r: string)
    ensures text == "" ==> r == ""
    ensures text != "" && |text| <= max ==> r == text
    ensures |text| > max >= 3 ==> |r| == max && r == text[..max - 3] + Ellipsis
    ensures max >= 3 ==> |r| <= max
  {
    if text == "" then ""
    else if |text| <= max then text
    else SliceTo(text, max - 3) + Ellipsis
  }

  // ---------------------------------------------------------------- extraction

  /** The patches the command works on: an array as is, `formatted_patches` when
      it is an array, and otherwise none. */
  function PatchList(body: PatchResponse): (ps: seq<Patch>)
    ensures body.PatchArray? ==> ps == body.items
    ensures body.PatchObject? && body.formattedPatches.Some? ==> ps == body.formattedPatches.value
    ensures body.OtherShape? || (body.PatchObject? && body.formattedPatches.None?) ==> ps == []
  {
    match body
    case PatchArray(items) => items
    case PatchObject(formatted) => if formatted.Some? then formatted.value else []
    case OtherShape => []
  }

  // ---------------------------------------------------------------- sorting

  predicate HasDate(p: Patch) {
    p.date != ""
  }

  /** The comparator handed to `sort`: a patch without a date goes after one with
      a date, and two dated patches compare by `da - db`, so earlier dates first. */
  function Compare(a: Patch, b: Patch): int {
    if !HasDate(a) && !HasDate(b) then 0
    else if !HasDate(a) then 1
    else if !HasDate(b) then -1
    else a.dateMs - b.dateMs
  }

  /** `a` may stay before `b`. */
  predicate Le(a: Patch, b: Patch) {
    Compare(a, b) <= 0
  }

  /** The comparator is consistent: antisymmetric, and `Le` is a total preorder. */
  lemma CompareConsistent(a: Patch, b: Patch, c: Patch)
    ensures Compare(a, b) == -Compare(b, a)
    ensures Le(a, b) || Le(b, a)
    ensures Le(a, b) && Le(b, c) ==> Le(a, c)
  {
  }

  predicate Sorted(s: seq<Patch>) {
    forall p, q :: 0 <= p < q < |s| ==> Le(s[p], s[q])
  }

  /** Inserting `x` behind a sorted list: `x` moves in front of each element that
      compares greater than it, and stays behind every other. */
  function InsertBack(s: seq<Patch>, x: Patch): seq<Patch>
    decreases |s|
  {
    if s == [] then [x]
    else if Compare(s[|s| - 1], x) > 0 then InsertBack(s[..|s| - 1], x) + [s[|s| - 1]]
    else s + [x]
  }

  /** The order `sort` leaves: a stable insertion sort by `Compare`. */
  function InsertionSorted(s: seq<Patch>): seq<Patch>
    decreases |s|
  {
    if s == [] then [] else InsertBack(InsertionSorted(s[..|s| - 1]), s[|s| - 1])
  }

  /** Inserting adds `x` and loses nothing. */
  lemma {:induction false} InsertBackPermutes(s: seq<Patch>, x: Patch)
    ensures multiset(InsertBack(s, x)) == multiset(s) + multiset{x}
    decreases |s|
  {
    if s != [] {
      var init, last := s[..|s| - 1], s[|s| - 1];
      assert s == init + [last];
      if Compare(last, x) > 0 {
        InsertBackPermutes(init, x);
      }
    }
  }

  /** Inserting into a sorted list keeps it sorted. */
  lemma {:induction false} InsertBackSorted(s: seq<Patch>, x: Patch)
    requires Sorted(s)
    ensures Sorted(InsertBack(s, x))
    decreases |s|
  {
    if s != [] {
      var init, last := s[..|s| - 1], s[|s| - 1];
      assert s == init + [last];
      if Compare(last, x) > 0 {
        InsertBackSorted(init, x);
        InsertBackPermutes(init, x);
        var r := InsertBack(init, x);
        forall e | e in r ensures Le(e, last) {
          assert e in multiset(r);
          if e != x {
            assert e in multiset(init);
            var p :| 0 <= p < |init| && init[p] == e;
            assert s[p] == e;
          }
        }
        var out := r + [last];
        forall p, q | 0 <= p < q < |out| ensures Le(out[p], out[q]) {
          if q == |r| {
            assert out[p] == r[p] && r[p] in r;
          } else {
            assert out[p] == r[p] && out[q] == r[q];
          }
        }
      } else {
        var out := s + [x];
        forall p, q | 0 <= p < q < |out| ensures Le(out[p], out[q]) {
          if q == |s| {
            if p < |s| - 1 {
              CompareConsistent(s[p], last, x);
            }
          }
        }
      }
    }
  }

  /** The sorted order is a permutation of the input in which every dated patch
      precedes every undated one and dated patches run from the earliest date. */
  lemma InsertionSortedOrder(s: seq<Patch>)
    ensures multiset(InsertionSorted(s)) == multiset(s)
    ensures Sorted(InsertionSorted(s))
    ensures var r := InsertionSorted(s);
      forall p, q :: 0 <= p < q < |r| ==>
        (HasDate(r[q]) ==> HasDate(r[p])) && (HasDate(r[p]) && HasDate(r[q]) ==> r[p].dateMs <= r[q].dateMs)
  {
    InsertionSortedPermutes(s);
    SortedDatedFirst(InsertionSorted(s));
  }

  /** The insertion sort returns a sorted permutation of its input. */
  lemma {:induction false} InsertionSortedPermutes(s: seq<Patch>)
    ensures multiset(InsertionSorted(s)) == multiset(s)
    ensures Sorted(InsertionSorted(s))
    decreases |s|
  {
    if s != [] {
      InsertionSortedPermutes(s[..|s| - 1]);
      InsertBackSorted(InsertionSorted(s[..|s| - 1]), s[|s| - 1]);
      InsertBackPermutes(InsertionSorted(s[..|s| - 1]), s[|s| - 1]);
      assert s == s[..|s| - 1] + [s[|s| - 1]];
    }
  }

  /** In comparator order every dated patch precedes every undated one, and dated
      patches run from the earliest date. */
  lemma SortedDatedFirst(r: seq<Patch>)
    requires Sorted(r)
    ensures forall p, q :: 0 <= p < q < |r| ==>
        (HasDate(r[q]) ==> HasDate(r[p])) && (HasDate(r[p]) && HasDate(r[q]) ==> r[p].dateMs <= r[q].dateMs)
  {
    forall p, q | 0 <= p < q < |r|
      ensures (HasDate(r[q]) ==> HasDate(r[p])) && (HasDate(r[p]) && HasDate(r[q]) ==> r[p].dateMs <= r[q].dateMs)
    {
      assert Le(r[p], r[q]);
    }
  }

  /** Patches that compare equal keep their input order: sorting patches that
      all lack a date changes nothing. */
  lemma {:induction false} UndatedKeepOrder(s: seq<Patch>)
    requires forall i :: 0 <= i < |s| ==> !HasDate(s[i])
    ensures InsertionSorted(s) == s
    decreases |s|
  {
    if s != [] {
      UndatedKeepOrder(s[..|s| - 1]);
      if |s| > 1 {
        assert Compare(s[|s| - 2], s[|s| - 1]) == 0;
      }
      assert s[..|s| - 1] + [s[|s| - 1]] == s;
    }
  }

  /** Where the insertion stops: `x` lands at position `p` when everything behind
      `p` compares greater than `x` and the element just before `p`, if any, does not. */
  lemma {:induction false} InsertBackAt(s: seq<Patch>, x: Patch, p: nat)
    requires p <= |s|
    requires forall k :: p <= k < |s| ==> Compare(s[k], x) > 0
    requires p == 0 || Compare(s[p - 1], x) <= 0
    ensures InsertBack(s, x) == s[..p] + [x] + s[p..]
    decreases |s|
  {
    if p < |s| {
      var init, last := s[..|s| - 1], s[|s| - 1];
      assert Compare(last, x) > 0;
      assert InsertBack(s, x) == InsertBack(init, x) + [last];
      assert init[..p] == s[..p];
      assert forall k :: p <= k < |init| ==> init[k] == s[k];
      InsertBackAt(init, x, p);
      assert init[p..] + [last] == s[p..];
    }
  }

  /** Where `x` goes among `a[..i]`: walking left from `i`, past every element
      that compares greater than `x`, up to the first that does not. */
  method InsertionPoint(a: array<Patch>, i: nat, x: Patch) returns (j: nat)
    requires i <= a.Length
    ensures j <= i
    ensures forall k :: j <= k < i ==> Compare(a[k], x) > 0
    ensures j == 0 || Compare(a[j - 1], x) <= 0
  {
    j := i;
    while j > 0 && Compare(a[j - 1], x) > 0
      invariant j <= i
      invariant forall k :: j <= k < i ==> Compare(a[k], x) > 0
    {
      j := j - 1;
    }
  }

  /** Moves `a[j..i]` one place right, over `a[i]`; `a[j]` keeps its old value. */
  method ShiftRight(a: array<Patch>, j: nat, i: nat)
    requires j <= i < a.Length
    modifies a
    ensures forall k :: 0 <= k <= j ==> a[k] == old(a[k])
    ensures forall k :: j < k <= i ==> a[k] == old(a[k - 1])
    ensures forall k :: i < k < a.Length ==> a[k] == old(a[k])
  {
    var m := i;
    while m > j
      invariant j <= m <= i
      invariant forall k :: 0 <= k <= m ==> a[k] == old(a[k])
      invariant forall k :: m < k <= i ==> a[k] == old(a[k - 1])
      invariant forall k :: i < k < a.Length ==> a[k] == old(a[k])
    {
      a[m] := a[m - 1];
      m := m - 1;
    }
  }

  /** Moves `a[i]` left past every element before it that compares greater,
      shifting those one place right. */
  method InsertInto(a: array<Patch>, i: nat)
    requires i < a.Length
    modifies a
    ensures a[..i + 1] == InsertBack(old(a[..i]), old(a[i]))
    ensures a[i + 1..] == old(a[i + 1..])
  {
    ghost var prefix := a[..i];
    var x := a[i];
    var j := InsertionPoint(a, i, x);
    assert forall k :: 0 <= k < i ==> prefix[k] == a[k];
    InsertBackAt(prefix, x, j);
    ShiftRight(a, j, i);
    a[j] := x;
    ShiftedIn(a[..], prefix, x, j);
    assert a[i + 1..] == old(a[i + 1..]);
  }

  /** After the shift: `prefix[..j]`, then `x`, then the rest of `prefix`. */
  lemma ShiftedIn(s: seq<Patch>, prefix: seq<Patch>, x: Patch, j: nat)
    requires j <= |prefix| < |s|
    requires forall k :: 0 <= k < j ==> s[k] == prefix[k]
    requires s[j] == x
    requires forall k :: j < k <= |prefix| ==> s[k] == prefix[k - 1]
    ensures s[..|prefix| + 1] == prefix[..j] + [x] + prefix[j..]
  {
  }

  /** `patches.sort(comparator)`, in place, as an insertion sort that shifts each element left into place. */
  method SortPatches(a: array<Patch>)
    modifies a
    ensures a[..] == InsertionSorted(old(a[..]))
  {
    ghost var orig := a[..];
    var i := 0;
    while i < a.Length
      invariant 0 <= i <= a.Length
      invariant a[..i] == InsertionSorted(orig[..i])
      invariant a[i..] == orig[i..]
    {
      assert a[i] == orig[i] by { assert a[i..][0] == orig[i..][0]; }
      assert orig[..i + 1][..i] == orig[..i];
      InsertInto(a, i);
      assert orig[i + 1..] == orig[i..][1..];
      i := i + 1;
    }
    assert orig[..a.Length] == orig;
  }

  // ---------------------------------------------------------------- the reply

  /** `interaction.options.getInteger("count") || 3`; `None` stands for no option. */
  function EffectiveCount(count: Option<int>): (n: int)
    ensures count.None? || count == Some(0) ==> n == DefaultCount
    ensures count.Some? && count.value != 0 ==> n == count.value
  {
    if count.None? || count.value == 0 then DefaultCount else count.value
  }

  /** `previewText || fullContent || "No summary provided by the API."`. */
  function RawSummary(p: Patch): (t: string)
    ensures t != ""
    ensures p.previewText != "" ==> t == p.previewText
    ensures p.previewText == "" && p.fullContent != "" ==> t == p.fullContent
    ensures p.previewText == "" && p.fullContent == "" ==> t == NoSummary
  {
    if p.previewText != "" then p.previewText
    else if p.fullContent != "" then p.fullContent
    else NoSummary
  }

  /** The field for the patch at 0-based position `index` of the slice. */
  function EntryFor(p: Patch, index: nat): Entry {
    Entry(index + 1,
          if p.title != "" then p.title else "Patch " + NatToString(index + 1),
          if p.date != "" then " (" + p.date + ")" else "",
          if p.kind != "" then p.kind else DefaultKind,
          Shorten(StripHtml(RawSummary(p)), SummaryLimit))
  }

  /** What a field shows: its 1-based number, the title or `Patch n`, the date in
      parentheses exactly when there is a date, the type or its default, and a
      summary of at most 250 characters, with no tag left in it, that is the whole
      stripped text when that fits and its first 247 characters and `...` when not. */
  lemma EntryForFields(p: Patch, index: nat)
    ensures var e := EntryFor(p, index);
      && e.number == index + 1
      && (p.title != "" ==> e.title == p.title)
      && (p.title == "" ==> e.title == "Patch " + NatToString(index + 1))
      && (e.datePart == "" <==> p.date == "")
      && (p.date != "" ==> e.datePart == " (" + p.date + ")")
      && (p.kind != "" ==> e.kind == p.kind)
      && (p.kind == "" ==> e.kind == DefaultKind)
      && |e.summary| <= SummaryLimit
      && (|StripHtml(RawSummary(p))| <= SummaryLimit ==> e.summary == StripHtml(RawSummary(p)))
      && (|StripHtml(RawSummary(p))| > SummaryLimit ==>
            e.summary == StripHtml(RawSummary(p))[..SummaryLimit - 3] + Ellipsis)
      && NoTag(e.summary)
  {
    var stripped := StripHtml(RawSummary(p));
    var summary := Shorten(stripped, SummaryLimit);
    StripHtmlNoTag(RawSummary(p));
    if |stripped| > SummaryLimit {
      assert summary == stripped[..SummaryLimit - 3] + Ellipsis;
      forall i, j | 0 <= i < j < |summary| && summary[i] == '<' ensures summary[j] != '>' {
        if j < SummaryLimit - 3 {
          assert summary[i] == stripped[i] && summary[j] == stripped[j];
        }
      }
    }
  }

  /** The patches shown: the first `count` of the sorted list. */
  function Shown(count: Option<int>, patches: seq<Patch>): seq<Patch> {
    SliceTo(InsertionSorted(patches), EffectiveCount(count))
  }

  /** The comparator sorts dated patches oldest first, so a reply under "Latest
      Patch Notes" with `count` 1 shows the older of two dated patches, in
      whichever order the API lists them. */
  lemma OldestShownFirst(older: Patch, newer: Patch)
    requires HasDate(older) && HasDate(newer) && older.dateMs < newer.dateMs
    ensures Shown(Some(1), [newer, older]) == [older]
    ensures Shown(Some(1), [older, newer]) == [older]
  {
    assert [newer, older][..1] == [newer] && [older, newer][..1] == [older];
    assert InsertionSorted([newer]) == [newer] by { assert [newer][..0] == []; }
    assert InsertionSorted([older]) == [older] by { assert [older][..0] == []; }
    assert InsertBack([newer], older) == [older, newer] by { assert [newer][..0] == []; }
    assert InsertionSorted([newer, older]) == [older, newer];
    assert InsertionSorted([older, newer]) == [older, newer];
  }

  /** What the command replies with. */
  function PatchNotesReply(count: Option<int>, fetch: PatchFetch): PatchReply {
    if fetch.FetchFailed? then CouldNotFetch
    else
      var patches := PatchList(fetch.body);
      if patches == [] then NoPatchNotes
      else
        var shown := Shown(count, patches);
        Embed(Entries(shown))
  }

  /** The fields for a slice, one per patch, in order. */
  function Entries(slice: seq<Patch>): (es: seq<Entry>)
    ensures |es| == |slice|
    decreases |slice|
  {
    if slice == [] then []
    else Entries(slice[..|slice| - 1]) + [EntryFor(slice[|slice| - 1], |slice| - 1)]
  }

  /** The field at position `i` describes the `i`-th patch of the slice. */
  lemma {:induction false} EntriesAt(slice: seq<Patch>, i: nat)
    requires i < |slice|
    ensures Entries(slice)[i] == EntryFor(slice[i], i)
    decreases |slice|
  {
    if i < |slice| - 1 {
      var init := slice[..|slice| - 1];
      EntriesAt(init, i);
      assert init[i] == slice[i];
    }
  }

  /** `slice.forEach((p, index) => embed.addFields(...))`. */
  method DescribePatches(slice: seq<Patch>) returns (entries: seq<Entry>)
    ensures entries == Entries(slice)
  {
    entries := [];
    var index := 0;
    while index < |slice|
      invariant 0 <= index <= |slice|
      invariant entries == Entries(slice[..index])
    {
      assert slice[..index + 1][..index] == slice[..index];
      entries := entries + [EntryFor(slice[index], index)];
      index := index + 1;
    }
    assert slice[..index] == slice;
  }

  /** `execute`: the fetch, the extraction, the in-place sort, the slice and the fields. */
  method PatchNotes(count: Option<int>, fetch: PatchFetch) returns (reply: PatchReply)
    ensures reply == PatchNotesReply(count, fetch)
  {
    if fetch.FetchFailed? {
      return CouldNotFetch;
    }
    var patches := PatchList(fetch.body);
    if patches == [] {
      return NoPatchNotes;
    }
    var a := new Patch[|patches|](i requires 0 <= i < |patches| => patches[i]);
    assert a[..] == patches;
    SortPatches(a);
    var slice := SliceTo(a[..], EffectiveCount(count));
    var entries := DescribePatches(slice);
    reply := Embed(entries);
  }

  /** The reply's cases: a failed fetch, an empty list, or the fields. */
  lemma PatchNotesReplyCases(count: Option<int>, fetch: PatchFetch)
    ensures PatchNotesReply(count, fetch) == CouldNotFetch <==> fetch.FetchFailed?
    ensures PatchNotesReply(count, fetch) == NoPatchNotes <==> fetch.Received? && PatchList(fetch.body) == []
  {
  }

  /** With patches to show, at most `count` (3 by default) fields appear, numbered
      from 1, drawn from the list in sorted order, each summary at most 250 long. */
  lemma PatchNotesFields(count: Option<int>, patches: seq<Patch>)
    requires patches != []
    requires count.None? || count.value >= 0
    ensures var reply := PatchNotesReply(count, Received(PatchArray(patches)));
      var shown := Shown(count, patches);
      && reply.Embed?
      && |reply.entries| == (if EffectiveCount(count) < |patches| then EffectiveCount(count) else |patches|)
      && (forall i :: 0 <= i < |reply.entries| ==>
            reply.entries[i].number == i + 1 && |reply.entries[i].summary| <= SummaryLimit
            && reply.entries[i] == EntryFor(shown[i], i))
      && (forall i :: 0 <= i < |shown| ==> shown[i] in patches)
      && Sorted(shown)
  {
    var sorted := InsertionSorted(patches);
    InsertionSortedOrder(patches);
    var shown := Shown(count, patches);
    forall i | 0 <= i < |shown|
      ensures Entries(shown)[i] == EntryFor(shown[i], i)
      ensures EntryFor(shown[i], i).number == i + 1 && |EntryFor(shown[i], i).summary| <= SummaryLimit
    {
      EntriesAt(shown, i);
      EntryForFields(shown[i], i);
    }
    assert shown == sorted[..|shown|];
    forall i | 0 <= i < |shown| ensures shown[i] in patches {
      assert shown[i] == sorted[i];
      assert sorted[i] in multiset(sorted);
    }
  }
}
