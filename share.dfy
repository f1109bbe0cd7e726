/**
 * The item summary of the WhatsApp share message (App.tsx, shareViaWhatsApp):
 * one line per item, "- <qty>x <description cut to 50 characters>", joined by newlines.
 */
module Share {
  import opened Types

  const MaxDescLength: nat := 50

  function Min(a: nat, b: nat): nat
  {
    if a <= b then a else b
  }

  /** `desc.substring(0, 50)` followed by "..." when the description is longer than 50. */
  function TruncateDesc(desc: string): (r: string)
    ensures |r| == Min(|desc|, MaxDescLength) + (if |desc| > MaxDescLength then 3 else 0)
    ensures r[..Min(|desc|, MaxDescLength)] == desc[..Min(|desc|, MaxDescLength)]
    ensures |desc| > MaxDescLength ==> r[MaxDescLength..] == "..."
    ensures |desc| <= MaxDescLength ==> r == desc
  {
    desc[..Min(|desc|, MaxDescLength)] + (if |desc| > MaxDescLength then "..." else "")
  }

  /** One summary line; `showQty` is JavaScript's rendering of the quantity as text. */
  function SummaryLine(item: ProposalItem, showQty: real -> string): string
  {
    "- " + showQty(item.qty) + "x " + TruncateDesc(item.desc)
  }

  function SummaryLines(items: seq<ProposalItem>, showQty: real -> string): (r: seq<string>)
    ensures |r| == |items|
    ensures forall k :: 0 <= k < |items| ==> r[k] == SummaryLine(items[k], showQty)
  {
    if items == [] then [] else [SummaryLine(items[0], showQty)] + SummaryLines(items[1..], showQty)
  }

  /** `lines.join('\n')`. */
  function JoinLines(lines: seq<string>): (r: string)
    ensures lines == [] ==> r == ""
    ensures lines != [] ==> |lines[0]| <= |r| && r[..|lines[0]|] == lines[0]
  {
    if lines == [] then ""
    else if |lines| == 1 then lines[0]
    else lines[0] + "\n" + JoinLines(lines[1..])
  }

  /** Joining two non-empty runs of lines puts exactly one newline between them. */
  lemma {:induction false} JoinLinesAppend(a: seq<string>, b: seq<string>)
    requires a != [] && b != []
    ensures JoinLines(a + b) == JoinLines(a) + "\n" + JoinLines(b)
  {
    var ab := a + b;
    assert ab[0] == a[0];
    if |a| == 1 {
      assert ab[1..] == b;
    } else {
      assert ab[1..] == a[1..] + b;
      JoinLinesAppend(a[1..], b);
    }
  }

  function SumOfLengths(lines: seq<string>): nat
  {
    if lines == [] then 0 else |lines[0]| + SumOfLengths(lines[1..])
  }

  /** Joining adds exactly one separator between consecutive lines. */
  lemma {:induction false} JoinLinesLength(lines: seq<string>)
    requires lines != []
    ensures |JoinLines(lines)| == SumOfLengths(lines) + |lines| - 1
  {
    if |lines| > 1 {
      JoinLinesLength(lines[1..]);
    }
  }

  function ItemSummary(items: seq<ProposalItem>, showQty: real -> string): string
  {
    JoinLines(SummaryLines(items, showQty))
  }
}
