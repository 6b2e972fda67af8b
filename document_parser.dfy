/** src/components/TokenAnalyzer/DocumentParser.jsx: file validation, PDF
    text reconstruction (fragment ordering within a page, pages read in
    batches of five) and the progress protocol of `parseFile`.  The pdf.js
    calls are replaced by their results: a document is the sequence of its
    pages, a page the sequence of its positioned text fragments. */
module DocumentParser {
  import opened Wrappers
  import opened JsString
  import opened WebFile

  /** `FILE_SIZE_LIMIT`: 10 MiB. */
  const FILE_SIZE_LIMIT: nat := 10 * 1024 * 1024

  /** The media types `validateFile` accepts. */
  const SUPPORTED_TYPES: seq<string> := [
    "text/plain",
    "application/pdf",
    "application/vnd.openxmlformats-officedocument.wordprocessingml.document",
    "application/msword"
  ]

  /** `CHUNK_SIZE`: how many pages `parsePdfFile` requests at once. */
  const CHUNK_SIZE: nat := 5

  // ---------------------------------------------------------------------
  // validateFile

  /** The two reasons for rejecting a file, in the order they are checked. */
  datatype Violation = TooLarge | UnsupportedType

  /** The rejection rule shared by both copies of `validateFile`: a size
      strictly above the limit, then a media type outside the list. */
  function Violations(file: InputFile, limit: nat, supportedTypes: seq<string>): (vs: seq<Violation>)
    ensures vs == [] <==> file.size <= limit && file.mediaType in supportedTypes
    ensures TooLarge in vs <==> file.size > limit
    ensures UnsupportedType in vs <==> file.mediaType !in supportedTypes
    ensures |vs| <= 2 && (|vs| == 2 ==> vs == [TooLarge, UnsupportedType])
  {
    (if file.size > limit then [TooLarge] else [])
    + (if file.mediaType !in supportedTypes then [UnsupportedType] else [])
  }

  /** The messages this copy reports (`FILE_SIZE_LIMIT / 1024 / 1024` is 10). */
  function Message(v: Violation): string
  {
    match v
    case TooLarge => "File size exceeds 10MB limit"
    case UnsupportedType => "Unsupported file type"
  }

  lemma SizeMessageMentionsLimit()
    ensures FILE_SIZE_LIMIT / 1024 / 1024 == 10
    ensures Message(TooLarge) == "File size exceeds " + "10" + "MB limit"
  {
  }

  /** `DocumentParser.validateFile`: one message per violation, in order;
      no message exactly when the file is accepted. */
  method ValidateFile(file: InputFile) returns (errors: seq<string>)
    ensures errors == [] <==> file.size <= FILE_SIZE_LIMIT && file.mediaType in SUPPORTED_TYPES
    ensures |errors| == |Violations(file, FILE_SIZE_LIMIT, SUPPORTED_TYPES)|
    ensures forall i :: 0 <= i < |errors| ==>
              errors[i] == Message(Violations(file, FILE_SIZE_LIMIT, SUPPORTED_TYPES)[i])
  {
    errors := [];
    if file.size > FILE_SIZE_LIMIT {
      errors := errors + [Message(TooLarge)];
    }
    if file.mediaType !in SUPPORTED_TYPES {
      errors := errors + [Message(UnsupportedType)];
    }
  }

  /** The size comparison is strict: a file of exactly 10 MiB passes it. */
  lemma ExactLimitPasses(file: InputFile)
    requires file.size == 10485760
    ensures TooLarge !in Violations(file, FILE_SIZE_LIMIT, SUPPORTED_TYPES)
    ensures file.mediaType in SUPPORTED_TYPES ==> Violations(file, FILE_SIZE_LIMIT, SUPPORTED_TYPES) == []
  {
  }

  // ---------------------------------------------------------------------
  // extractPageText

  /** A text fragment of a page with its (already rounded) position. */
  datatype Fragment = Fragment(text: string, x: int, y: int)

  /** The sort comparator `(a, b) => b.y - a.y || a.x - b.x`: negative when
      `a` belongs before `b` (higher on the page, or same line and further left). */
  function Compare(a: Fragment, b: Fragment): (c: int)
    ensures c < 0 <==> a.y > b.y || (a.y == b.y && a.x < b.x)
    ensures c == 0 <==> a.y == b.y && a.x == b.x
  {
    if b.y - a.y != 0 then b.y - a.y else a.x - b.x
  }

  predicate SamePosition(a: Fragment, b: Fragment)
  {
    a.x == b.x && a.y == b.y
  }

  /** The comparator never puts two fragments strictly before each other,
      and it ties exactly the fragments at the same position. */
  lemma CompareIsConsistent(a: Fragment, b: Fragment)
    ensures Compare(a, b) == -Compare(b, a)
    ensures Compare(a, b) == 0 <==> SamePosition(a, b)
  {
  }

  /** No fragment is placed after one the comparator orders behind it. */
  predicate Sorted(s: seq<Fragment>)
  {
    forall i, j :: 0 <= i < j < |s| ==> Compare(s[i], s[j]) <= 0
  }

  /** `f` may stand in front of every fragment of `s`. */
  predicate PrecedesAll(f: Fragment, s: seq<Fragment>)
  {
    forall j :: 0 <= j < |s| ==> Compare(f, s[j]) <= 0
  }

  lemma PrependSorted(f: Fragment, s: seq<Fragment>)
    requires Sorted(s) && PrecedesAll(f, s)
    ensures Sorted([f] + s)
  {
    var r := [f] + s;
    forall i, j | 0 <= i < j < |r| ensures Compare(r[i], r[j]) <= 0 {
      if i > 0 {
        assert r[i] == s[i - 1] && r[j] == s[j - 1];
      }
    }
  }

  /** Puts `f` in front of the first fragment of `s` that does not strictly
      precede it, so `f` stays ahead of the fragments it ties with. */
  function Insert(f: Fragment, s: seq<Fragment>): seq<Fragment>
  {
    if s == [] || Compare(s[0], f) >= 0 then [f] + s
    else [s[0]] + Insert(f, s[1..])
  }

  lemma {:induction false} InsertPermutes(f: Fragment, s: seq<Fragment>)
    ensures multiset(Insert(f, s)) == multiset(s) + multiset{f}
  {
    if s != [] && Compare(s[0], f) < 0 {
      InsertPermutes(f, s[1..]);
      assert s == [s[0]] + s[1..];
    }
  }

  lemma {:induction false} InsertSorted(f: Fragment, s: seq<Fragment>)
    requires Sorted(s)
    ensures Sorted(Insert(f, s))
  {
    if s == [] || Compare(s[0], f) >= 0 {
      assert PrecedesAll(f, s) by {
        forall j | 0 <= j < |s| ensures Compare(f, s[j]) <= 0 {
          assert Compare(s[0], s[j]) <= 0 || j == 0;
        }
      }
      PrependSorted(f, s);
    } else {
      SortedTail(s);
      InsertSorted(f, s[1..]);
      var rest := Insert(f, s[1..]);
      InsertPermutes(f, s[1..]);
      assert s == [s[0]] + s[1..];
      assert PrecedesAll(s[0], rest) by {
        forall j | 0 <= j < |rest| ensures Compare(s[0], rest[j]) <= 0 {
          assert rest[j] in multiset(rest);
          if rest[j] != f {
            assert rest[j] in multiset(s[1..]);
            var k :| 0 <= k < |s[1..]| && s[1..][k] == rest[j];
            assert s[k + 1] == rest[j];
          }
        }
      }
      PrependSorted(s[0], rest);
    }
  }

  /** `items.sort(comparator)`, a stable sort, as an insertion sort. */
  function SortFragments(fs: seq<Fragment>): seq<Fragment>
  {
    if fs == [] then []
    else Insert(fs[0], SortFragments(fs[1..]))
  }

  /** The sort puts the fragments in comparator order and loses or adds none. */
  lemma {:induction false} SortSortsAndPermutes(fs: seq<Fragment>)
    ensures Sorted(SortFragments(fs))
    ensures multiset(SortFragments(fs)) == multiset(fs)
  {
    if fs != [] {
      SortSortsAndPermutes(fs[1..]);
      InsertSorted(fs[0], SortFragments(fs[1..]));
      InsertPermutes(fs[0], SortFragments(fs[1..]));
      assert fs == [fs[0]] + fs[1..];
    }
  }

  /** The fragments at position (x, y), in their order in `s`. */
  function AtPosition(s: seq<Fragment>, x: int, y: int): seq<Fragment>
  {
    if s == [] then []
    else (if s[0].x == x && s[0].y == y then [s[0]] else []) + AtPosition(s[1..], x, y)
  }

  lemma {:induction false} InsertKeepsTies(f: Fragment, s: seq<Fragment>, x: int, y: int)
    ensures AtPosition(Insert(f, s), x, y) == AtPosition([f] + s, x, y)
  {
    if s == [] || Compare(s[0], f) >= 0 {
    } else {
      InsertKeepsTies(f, s[1..], x, y);
      assert ([s[0]] + Insert(f, s[1..]))[1..] == Insert(f, s[1..]);
      assert ([f] + s[1..])[1..] == s[1..];
      assert ([f] + s)[1..] == s;
      assert ([s[0]] + s[1..]) == s;
      assert !SamePosition(s[0], f);
    }
  }

  /** Stability: fragments at the same position keep their input order. */
  lemma {:induction false} SortIsStable(fs: seq<Fragment>, x: int, y: int)
    ensures AtPosition(SortFragments(fs), x, y) == AtPosition(fs, x, y)
  {
    if fs != [] {
      SortIsStable(fs[1..], x, y);
      InsertKeepsTies(fs[0], SortFragments(fs[1..]), x, y);
      assert ([fs[0]] + SortFragments(fs[1..]))[1..] == SortFragments(fs[1..]);
    }
  }

  /** `order` is a reading order of the fragments `fs`: a rearrangement of
      them that the comparator accepts and that keeps ties in input order. */
  ghost predicate IsReadingOrder(fs: seq<Fragment>, order: seq<Fragment>)
  {
    && multiset(order) == multiset(fs)
    && Sorted(order)
    && forall x, y :: AtPosition(order, x, y) == AtPosition(fs, x, y)
  }

  lemma SortIsReadingOrder(fs: seq<Fragment>)
    ensures IsReadingOrder(fs, SortFragments(fs))
  {
    SortSortsAndPermutes(fs);
    forall x, y ensures AtPosition(SortFragments(fs), x, y) == AtPosition(fs, x, y) {
      SortIsStable(fs, x, y);
    }
  }

  lemma SortedTail(s: seq<Fragment>)
    requires Sorted(s) && s != []
    ensures Sorted(s[1..])
  {
    forall i, j | 0 <= i < j < |s| - 1 ensures Compare(s[1..][i], s[1..][j]) <= 0 {
      assert s[1..][i] == s[i + 1] && s[1..][j] == s[j + 1];
    }
  }

  /** A sorted sequence starts with a fragment that may precede any of its elements. */
  lemma HeadPrecedes(s: seq<Fragment>, e: Fragment)
    requires Sorted(s) && e in multiset(s)
    ensures Compare(s[0], e) <= 0
  {
    var k :| 0 <= k < |s| && s[k] == e;
    if k == 0 {
      CompareIsConsistent(e, e);
    }
  }

  /** Removing the same first fragment from two sequences with equal
      position-subsequences leaves tails with equal position-subsequences. */
  lemma TailsAgreeAtPositions(a: seq<Fragment>, b: seq<Fragment>)
    requires a != [] && b != [] && a[0] == b[0]
    requires forall x, y :: AtPosition(a, x, y) == AtPosition(b, x, y)
    ensures forall x, y :: AtPosition(a[1..], x, y) == AtPosition(b[1..], x, y)
  {
    forall x, y ensures AtPosition(a[1..], x, y) == AtPosition(b[1..], x, y) {
      var h := if a[0].x == x && a[0].y == y then [a[0]] else [];
      assert AtPosition(a, x, y) == AtPosition(b, x, y);
      assert (h + AtPosition(a[1..], x, y))[|h|..] == AtPosition(a[1..], x, y);
      assert (h + AtPosition(b[1..], x, y))[|h|..] == AtPosition(b[1..], x, y);
    }
  }

  /** Two reading orders of the same fragments start with the same fragment. */
  lemma HeadsAgree(a: seq<Fragment>, b: seq<Fragment>)
    requires a != [] && multiset(a) == multiset(b) && Sorted(a) && Sorted(b)
    requires forall x, y :: AtPosition(a, x, y) == AtPosition(b, x, y)
    ensures b != [] && a[0] == b[0]
  {
    assert a[0] in multiset(b);
    HeadPrecedes(b, a[0]);
    HeadPrecedes(a, b[0]);
    CompareIsConsistent(a[0], b[0]);
    var x, y := a[0].x, a[0].y;
    assert AtPosition(a, x, y) == AtPosition(b, x, y);
    assert AtPosition(a, x, y)[0] == a[0] && AtPosition(b, x, y)[0] == b[0];
  }

  /** Removing the same first fragment from two rearrangements of each other
      leaves rearrangements of each other. */
  lemma TailsPermute(a: seq<Fragment>, b: seq<Fragment>)
    requires a != [] && b != [] && a[0] == b[0] && multiset(a) == multiset(b)
    ensures multiset(a[1..]) == multiset(b[1..])
  {
    assert a == [a[0]] + a[1..] && b == [b[0]] + b[1..];
    assert multiset(a) == multiset{a[0]} + multiset(a[1..]);
    assert multiset(b) == multiset{a[0]} + multiset(b[1..]);
    assert multiset(a[1..]) == multiset(a) - multiset{a[0]};
    assert multiset(b[1..]) == multiset(b) - multiset{a[0]};
  }

  /** Two reading orders of the same fragments are the same sequence. */
  lemma {:induction false} ReadingOrdersAgree(a: seq<Fragment>, b: seq<Fragment>)
    requires multiset(a) == multiset(b) && Sorted(a) && Sorted(b)
    requires forall x, y :: AtPosition(a, x, y) == AtPosition(b, x, y)
    ensures a == b
    decreases |a|
  {
    if a == [] {
      assert |multiset(b)| == 0;
    } else {
      HeadsAgree(a, b);
      TailsAgreeAtPositions(a, b);
      TailsPermute(a, b);
      SortedTail(a);
      SortedTail(b);
      ReadingOrdersAgree(a[1..], b[1..]);
      assert a == [a[0]] + a[1..] && b == [b[0]] + b[1..];
    }
  }

  /** The texts of the fragments, in order (`.map((item) => item.text)`). */
  function Texts(fs: seq<Fragment>): (ts: seq<string>)
    ensures |ts| == |fs|
    ensures forall i :: 0 <= i < |fs| ==> ts[i] == fs[i].text
  {
    seq(|fs|, i requires 0 <= i < |fs| => fs[i].text)
  }

  /** `extractPageText`: the page's fragment texts in reading order, joined
      with single spaces. */
  function ExtractPageText(fragments: seq<Fragment>): string
  {
    Join(Texts(SortFragments(fragments)), " ")
  }

  /** The page text is the space-join of THE reading order of the fragments:
      any rearrangement that is sorted by the comparator and keeps ties in
      input order gives this text. */
  lemma PageTextFollowsReadingOrder(fragments: seq<Fragment>, order: seq<Fragment>)
    requires IsReadingOrder(fragments, order)
    ensures ExtractPageText(fragments) == Join(Texts(order), " ")
  {
    SortIsReadingOrder(fragments);
    ReadingOrdersAgree(order, SortFragments(fragments));
  }

  lemma TextsCons(f: Fragment, s: seq<Fragment>)
    ensures Texts([f] + s) == [f.text] + Texts(s)
  {
  }

  lemma {:induction false} InsertTexts(f: Fragment, s: seq<Fragment>)
    ensures multiset(Texts(Insert(f, s))) == multiset(Texts(s)) + multiset{f.text}
  {
    if s == [] || Compare(s[0], f) >= 0 {
      TextsCons(f, s);
    } else {
      InsertTexts(f, s[1..]);
      TextsCons(s[0], Insert(f, s[1..]));
      TextsCons(s[0], s[1..]);
      assert s == [s[0]] + s[1..];
    }
  }

  /** Every fragment's text appears in the page text exactly as often as in
      the page: the words joined are a permutation of the fragment strings. */
  lemma {:induction false} PageTextUsesEveryFragment(fragments: seq<Fragment>)
    ensures multiset(Texts(SortFragments(fragments))) == multiset(Texts(fragments))
  {
    if fragments != [] {
      var f, rest := fragments[0], fragments[1..];
      assert fragments == [f] + rest;
      calc {
        multiset(Texts(SortFragments(fragments)));
        multiset(Texts(Insert(f, SortFragments(rest))));
        { InsertTexts(f, SortFragments(rest)); }
        multiset(Texts(SortFragments(rest))) + multiset{f.text};
        { PageTextUsesEveryFragment(rest); }
        multiset(Texts(rest)) + multiset{f.text};
        { TextsCons(f, rest); }
        multiset(Texts(fragments));
      }
    }
  }

  /** A page without fragments has the empty text; a one-fragment page has
      that fragment's text. */
  lemma ShortPageText(f: Fragment)
    ensures ExtractPageText([]) == ""
    ensures ExtractPageText([f]) == f.text
  {
    assert [f][1..] == [];
  }

  // ---------------------------------------------------------------------
  // parsePdfFile

  function Min(a: int, b: int): int
  {
    if a <= b then a else b
  }

  /** The page numbers lo, lo + 1, ..., hi - 1. */
  function Range(lo: nat, hi: nat): (r: seq<nat>)
    requires lo <= hi
    ensures |r| == hi - lo
    ensures forall k :: 0 <= k < |r| ==> r[k] == lo + k
  {
    seq(hi - lo, k requires 0 <= k < hi - lo => lo + k)
  }

  /** `endPage` for the batch that starts at page `i`. */
  function BatchEnd(i: nat, numPages: nat): nat
  {
    Min(i + CHUNK_SIZE - 1, numPages)
  }

  /** The page-number batches requested from page `i` on. */
  function BatchesFrom(i: nat, numPages: nat): seq<seq<nat>>
    requires i >= 1
    decreases numPages + 1 - i
  {
    if i > numPages then []
    else [Range(i, BatchEnd(i, numPages) + 1)] + BatchesFrom(i + CHUNK_SIZE, numPages)
  }

  function Flatten(batches: seq<seq<nat>>): seq<nat>
  {
    if batches == [] then [] else batches[0] + Flatten(batches[1..])
  }

  lemma RangeSplit(lo: nat, mid: nat, hi: nat)
    requires lo <= mid <= hi
    ensures Range(lo, mid) + Range(mid, hi) == Range(lo, hi)
  {
  }

  lemma {:induction false} BatchesFromCover(i: nat, numPages: nat)
    requires 1 <= i <= numPages + 1
    ensures Flatten(BatchesFrom(i, numPages)) == Range(i, numPages + 1)
    decreases numPages + 1 - i
  {
    if i <= numPages {
      var e := BatchEnd(i, numPages);
      assert BatchesFrom(i, numPages)[1..] == BatchesFrom(i + CHUNK_SIZE, numPages);
      if i + CHUNK_SIZE <= numPages + 1 {
        BatchesFromCover(i + CHUNK_SIZE, numPages);
        assert e + 1 == i + CHUNK_SIZE;
        RangeSplit(i, e + 1, numPages + 1);
      } else {
        assert BatchesFrom(i + CHUNK_SIZE, numPages) == [];
      }
    }
  }

  /** Every page 1..numPages is requested exactly once, in ascending order. */
  lemma BatchesCoverEveryPage(numPages: nat)
    ensures Flatten(BatchesFrom(1, numPages)) == Range(1, numPages + 1)
  {
    BatchesFromCover(1, numPages);
  }

  lemma {:induction false} BatchesFromShape(i: nat, numPages: nat)
    requires i >= 1
    ensures |BatchesFrom(i, numPages)| == if i > numPages then 0 else (numPages - i) / CHUNK_SIZE + 1
    ensures forall b :: 0 <= b < |BatchesFrom(i, numPages)| ==>
              BatchesFrom(i, numPages)[b] == Range(i + CHUNK_SIZE * b, Min(i + CHUNK_SIZE * b + CHUNK_SIZE - 1, numPages) + 1)
    decreases numPages + 1 - i
  {
    if i <= numPages {
      BatchesFromShape(i + CHUNK_SIZE, numPages);
      var bs := BatchesFrom(i, numPages);
      assert bs[1..] == BatchesFrom(i + CHUNK_SIZE, numPages);
      forall b | 1 <= b < |bs|
        ensures bs[b] == Range(i + CHUNK_SIZE * b, Min(i + CHUNK_SIZE * b + CHUNK_SIZE - 1, numPages) + 1)
      {
        assert bs[b] == bs[1..][b - 1];
      }
    }
  }

  /** Batches start at pages 1, 6, 11, ...; each holds min(5, pages left)
      pages; there are ceil(numPages / 5) of them. */
  lemma BatchLayout(numPages: nat)
    ensures |BatchesFrom(1, numPages)| == (numPages + CHUNK_SIZE - 1) / CHUNK_SIZE
    ensures forall b :: 0 <= b < |BatchesFrom(1, numPages)| ==>
              BatchesFrom(1, numPages)[b] == Range(CHUNK_SIZE * b + 1, Min(CHUNK_SIZE * b + CHUNK_SIZE, numPages) + 1)
  {
    BatchesFromShape(1, numPages);
  }

  /** The text of every page, in page order: entry p - 1 is page p. */
  function PageTextsOf(pages: seq<seq<Fragment>>): (texts: seq<string>)
    ensures |texts| == |pages|
    ensures forall k :: 0 <= k < |pages| ==> texts[k] == ExtractPageText(pages[k])
  {
    seq(|pages|, k requires 0 <= k < |pages| => ExtractPageText(pages[k]))
  }

  /** The text `parsePdfFile` accumulates from page `i` on, before trimming,
      given the page texts: each batch's pages joined with "\n", batches
      glued together with no separator. */
  function BatchedText(texts: seq<string>, i: nat): string
    requires i >= 1
    decreases |texts| + 1 - i
  {
    if i > |texts| then ""
    else Join(texts[i - 1..BatchEnd(i, |texts|)], "\n") + BatchedText(texts, i + CHUNK_SIZE)
  }

  /** Appending batch `i`'s text to what has been accumulated leaves the rest
      of the batches to be accumulated. */
  lemma BatchedTextStep(texts: seq<string>, i: nat, batchText: string, acc: string)
    requires 1 <= i <= |texts|
    requires batchText == Join(texts[i - 1..BatchEnd(i, |texts|)], "\n")
    ensures acc + BatchedText(texts, i) == (acc + batchText) + BatchedText(texts, i + CHUNK_SIZE)
  {
    var rest := BatchedText(texts, i + CHUNK_SIZE);
    assert BatchedText(texts, i) == batchText + rest;
    assert acc + (batchText + rest) == (acc + batchText) + rest;
  }

  /** Recording batch `i`'s page numbers leaves the rest of the batches to
      be recorded. */
  lemma BatchesFromStep(i: nat, numPages: nat, pageNumbers: seq<nat>, acc: seq<seq<nat>>)
    requires 1 <= i <= numPages
    requires pageNumbers == Range(i, BatchEnd(i, numPages) + 1)
    ensures acc + BatchesFrom(i, numPages) == (acc + [pageNumbers]) + BatchesFrom(i + CHUNK_SIZE, numPages)
  {
    var rest := BatchesFrom(i + CHUNK_SIZE, numPages);
    assert BatchesFrom(i, numPages) == [pageNumbers] + rest;
    assert acc + ([pageNumbers] + rest) == (acc + [pageNumbers]) + rest;
  }

  /** One batch of `parsePdfFile`: requests pages `first`..`last` in
      ascending order and gathers their texts in page order (the awaited
      `Promise.all` yields them by index, whatever order they finish in). */
  method ExtractBatch(pages: seq<seq<Fragment>>, first: nat, last: nat) returns (pageNumbers: seq<nat>, texts: seq<string>)
    requires 1 <= first <= last + 1 <= |pages| + 1
    ensures pageNumbers == Range(first, last + 1)
    ensures texts == PageTextsOf(pages)[first - 1..last]
  {
    pageNumbers, texts := [], [];
    var j := first;
    while j <= last
      invariant first <= j <= last + 1
      invariant pageNumbers == Range(first, j)
      invariant texts == PageTextsOf(pages)[first - 1..j - 1]
    {
      pageNumbers := pageNumbers + [j];
      texts := texts + [ExtractPageText(pages[j - 1])];
      j := j + 1;
    }
  }

  /** The loop of `parsePdfFile`: requests the pages in batches of
      `CHUNK_SIZE`, starting at page 1, and appends each batch's page texts
      joined with "\n" to `fullText`.  `batches` records the page numbers
      of each batch, in the order they are requested. */
  method ReadPageBatches(pages: seq<seq<Fragment>>) returns (fullText: string, batches: seq<seq<nat>>)
    ensures batches == BatchesFrom(1, |pages|)
    ensures fullText == BatchedText(PageTextsOf(pages), 1)
  {
    var numPages := |pages|;
    ghost var all := PageTextsOf(pages);
    fullText := "";
    batches := [];
    var i := 1;
    while i <= numPages
      invariant i >= 1
      invariant fullText + BatchedText(all, i) == BatchedText(all, 1)
      invariant batches + BatchesFrom(i, numPages) == BatchesFrom(1, numPages)
      decreases numPages + 1 - i
    {
      var endPage := Min(i + CHUNK_SIZE - 1, numPages);
      var pageNumbers, texts := ExtractBatch(pages, i, endPage);
      var batchText := Join(texts, "\n");
      BatchedTextStep(all, i, batchText, fullText);
      BatchesFromStep(i, numPages, pageNumbers, batches);
      batches := batches + [pageNumbers];
      fullText := fullText + batchText;
      i := i + CHUNK_SIZE;
    }
    assert BatchedText(all, i) == "";
  }

  /** `parsePdfFile`: the batched page text, trimmed. */
  method ParsePdfFile(pages: seq<seq<Fragment>>) returns (text: string, batches: seq<seq<nat>>)
    ensures batches == BatchesFrom(1, |pages|)
    ensures text == Trim(BatchedText(PageTextsOf(pages), 1))
  {
    var fullText;
    fullText, batches := ReadPageBatches(pages);
    text := Trim(fullText);
  }

  /** Up to five pages form a single batch: the text is the "\n"-join of all
      pages, and a document without pages gives "". */
  lemma SmallDocumentText(texts: seq<string>)
    requires |texts| <= CHUNK_SIZE
    ensures BatchedText(texts, 1) == Join(texts, "\n")
    ensures |texts| == 0 ==> Trim(BatchedText(texts, 1)) == ""
  {
    if |texts| > 0 {
      assert texts[0..|texts|] == texts;
    }
  }

  /** What the batching evidently intends: batches joined with "\n" like the
      pages inside them. */
  function JoinedBatchText(texts: seq<string>, i: nat): string
    requires i >= 1
    decreases |texts| + 1 - i
  {
    if i > |texts| then ""
    else
      var batch := Join(texts[i - 1..BatchEnd(i, |texts|)], "\n");
      if BatchEnd(i, |texts|) < |texts| then batch + "\n" + JoinedBatchText(texts, i + CHUNK_SIZE)
      else batch
  }

  /** PDF text extraction with the batch separator restored. */
  function IntendedPdfText(pages: seq<seq<Fragment>>): string
  {
    Trim(JoinedBatchText(PageTextsOf(pages), 1))
  }

  lemma {:induction false} JoinedBatchTextFrom(texts: seq<string>, i: nat)
    requires 1 <= i <= |texts| + 1
    ensures JoinedBatchText(texts, i) == Join(texts[i - 1..], "\n")
    decreases |texts| + 1 - i
  {
    var n := |texts|;
    if i <= n {
      var e := BatchEnd(i, n);
      var first, others := texts[i - 1..e], texts[e..];
      if e < n {
        assert e + 1 == i + CHUNK_SIZE;
        assert JoinedBatchText(texts, i) == Join(first, "\n") + "\n" + JoinedBatchText(texts, i + CHUNK_SIZE);
        JoinedBatchTextFrom(texts, i + CHUNK_SIZE);
        assert texts[i - 1..] == first + others;
        JoinConcat(first, others, "\n");
      } else {
        assert texts[i - 1..] == first;
      }
    }
  }

  /** Batching is invisible in the intended text: it is the trimmed
      "\n"-join of every page, in page order; for at most five pages it is
      what `parsePdfFile` returns. */
  lemma IntendedPdfTextJoinsAllPages(pages: seq<seq<Fragment>>)
    ensures IntendedPdfText(pages) == Trim(Join(PageTextsOf(pages), "\n"))
    ensures |pages| <= CHUNK_SIZE ==> IntendedPdfText(pages) == Trim(BatchedText(PageTextsOf(pages), 1))
  {
    var texts := PageTextsOf(pages);
    JoinedBatchTextFrom(texts, 1);
    assert texts[0..] == texts;
    if |pages| <= CHUNK_SIZE {
      SmallDocumentText(texts);
    }
  }

  /** Six pages holding one word each: "a" .. "f". */
  function SixOneWordPages(): seq<seq<Fragment>>
  {
    [[Fragment("a", 0, 0)], [Fragment("b", 0, 0)], [Fragment("c", 0, 0)],
     [Fragment("d", 0, 0)], [Fragment("e", 0, 0)], [Fragment("f", 0, 0)]]
  }

  lemma SixOneWordPageTexts()
    ensures PageTextsOf(SixOneWordPages()) == ["a", "b", "c", "d", "e", "f"]
  {
    var pages := SixOneWordPages();
    forall p | 0 <= p < 6 ensures ExtractPageText(pages[p]) == pages[p][0].text {
      ShortPageText(pages[p][0]);
    }
  }

  lemma SixTextsBatched()
    ensures var texts := ["a", "b", "c", "d", "e", "f"];
            BatchedText(texts, 1) == "a\nb\nc\nd\nef"
            && JoinedBatchText(texts, 1) == "a\nb\nc\nd\ne\nf"
  {
    var texts := ["a", "b", "c", "d", "e", "f"];
    assert texts[0..5] == ["a", "b", "c", "d", "e"] && texts[5..6] == ["f"];
    assert Join(["e"], "\n") == "e";
    assert Join(["d", "e"], "\n") == "d\ne";
    assert Join(["c", "d", "e"], "\n") == "c\nd\ne";
    assert Join(["b", "c", "d", "e"], "\n") == "b\nc\nd\ne";
    assert Join(["a", "b", "c", "d", "e"], "\n") == "a\nb\nc\nd\ne";
    assert Join(["f"], "\n") == "f";
    assert BatchedText(texts, 6) == "f";
    assert JoinedBatchText(texts, 6) == "f";
    assert BatchedText(texts, 1) == "a\nb\nc\nd\ne" + "f";
    assert JoinedBatchText(texts, 1) == "a\nb\nc\nd\ne" + "\n" + "f";
  }

  /** Six one-word pages "a" .. "f": `parsePdfFile` glues the fifth and sixth
      pages into "ef", where the pages were meant to be on separate lines. */
  lemma BatchSeamGluesPages()
    ensures Trim(BatchedText(PageTextsOf(SixOneWordPages()), 1)) == "a\nb\nc\nd\nef"
    ensures IntendedPdfText(SixOneWordPages()) == "a\nb\nc\nd\ne\nf"
  {
    SixOneWordPageTexts();
    SixTextsBatched();
    TrimUnchanged("a\nb\nc\nd\nef");
    TrimUnchanged("a\nb\nc\nd\ne\nf");
  }

  // ---------------------------------------------------------------------
  // parseFile

  datatype ParseOutcome = Parsed(text: string) | ParseFailed(error: string)

  /** What the inner parser (`_parseFile`, not part of this model) does:
      the progress values it reports itself and how it ends. */
  datatype InnerParse = InnerParse(progress: seq<int>, outcome: ParseOutcome)

  /** `parseFile`: reports 0, runs the inner parser (which reports through
      the same callback), then reports 100 and returns its result, or
      reports 0 and re-throws its error. */
  method ParseFile(inner: InnerParse) returns (progress: seq<int>, outcome: ParseOutcome)
    ensures |progress| == |inner.progress| + 2
    ensures progress[0] == 0
    ensures progress[1..|progress| - 1] == inner.progress
    ensures inner.outcome.Parsed? ==> progress[|progress| - 1] == 100
    ensures inner.outcome.ParseFailed? ==> progress[|progress| - 1] == 0
    ensures outcome == inner.outcome
  {
    progress := [0];
    progress := progress + inner.progress;
    match inner.outcome {
      case Parsed(_) =>
        progress := progress + [100];
      case ParseFailed(_) =>
        progress := progress + [0];
    }
    outcome := inner.outcome;
  }
}
