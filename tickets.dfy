/** The ticket record shared by the server and the client, and the string
    predicates both sides use on it. */
module Tickets {

  datatype Option<T> = None | Some(value: T)

  /** A support ticket: the server's row and the JSON object the client keeps.
      `createdAt` is a timestamp in whole seconds. */
  datatype Ticket = Ticket(
    id: int,
    title: string,
    description: string,
    category: string,
    priority: string,
    status: string,
    createdAt: int)

  /** The three categorical columns that are filtered on and counted. */
  datatype Attr = Category | Priority | Status

  function Field(t: Ticket, a: Attr): string
  {
    match a
    case Category => t.category
    case Priority => t.priority
    case Status => t.status
  }

  /** The declared choices of the ticket model, in declaration order. */
  const CategoryChoices: seq<string> := ["billing", "technical", "account", "general"]
  const PriorityChoices: seq<string> := ["low", "medium", "high", "critical"]
  const StatusChoices: seq<string> := ["open", "in_progress", "resolved", "closed"]

  /** ASCII lower-casing of one character. */
  function LowerChar(c: char): (r: char)
    ensures 'A' <= c <= 'Z' ==> r as int == c as int + 32
    ensures !('A' <= c <= 'Z') ==> r == c
    ensures !('A' <= r <= 'Z')
  {
    if 'A' <= c <= 'Z' then (c as int + 32) as char else c
  }

  function Lower(s: string): (r: string)
    ensures |r| == |s|
    ensures forall i :: 0 <= i < |s| ==> r[i] == LowerChar(s[i])
  {
    if s == [] then [] else [LowerChar(s[0])] + Lower(s[1..])
  }

  /** `needle` occurs somewhere in `hay`, tried position by position. */
  predicate Contains(hay: string, needle: string)
    decreases |hay|
  {
    needle <= hay || (|hay| > 0 && Contains(hay[1..], needle))
  }

  /** `needle` occurs in `hay` starting at position `i`. */
  predicate OccursAt(hay: string, needle: string, i: int)
  {
    0 <= i && i + |needle| <= |hay| && hay[i..i + |needle|] == needle
  }

  /** The positional `Contains` agrees with the textbook definition of a substring. */
  lemma {:induction false} ContainsIff(hay: string, needle: string)
    ensures Contains(hay, needle) <==> exists i :: OccursAt(hay, needle, i)
    decreases |hay|
  {
    if needle <= hay {
      assert OccursAt(hay, needle, 0);
    } else if |hay| > 0 {
      ContainsIff(hay[1..], needle);
      if Contains(hay[1..], needle) {
        var i :| OccursAt(hay[1..], needle, i);
        assert hay[i + 1..i + 1 + |needle|] == hay[1..][i..i + |needle|];
        assert OccursAt(hay, needle, i + 1);
      }
      if exists i :: OccursAt(hay, needle, i) {
        var i :| OccursAt(hay, needle, i);
        assert i != 0;
        assert hay[1..][i - 1..i - 1 + |needle|] == hay[i..i + |needle|];
        assert OccursAt(hay[1..], needle, i - 1);
      }
    }
  }

  /** Case-insensitive substring test, as a `__icontains` lookup performs it
      on ASCII text. */
  predicate IContains(hay: string, needle: string)
  {
    Contains(Lower(hay), Lower(needle))
  }

  /** An empty needle is found in every text, and a found needle is no
      longer than the text. */
  lemma IContainsBounds(hay: string, needle: string)
    ensures needle == "" ==> IContains(hay, needle)
    ensures IContains(hay, needle) ==> |needle| <= |hay|
  {
    ContainsIff(Lower(hay), Lower(needle));
  }

  /** Lower-casing twice is lower-casing once. */
  lemma LowerIdempotent(s: string)
    ensures Lower(Lower(s)) == Lower(s)
  {
    forall i | 0 <= i < |s| ensures Lower(Lower(s))[i] == Lower(s)[i] {
      assert LowerChar(Lower(s)[i]) == Lower(s)[i];
    }
  }

  /** The search ignores case on both sides. */
  lemma IContainsIgnoresCase(hay: string, needle: string)
    ensures IContains(hay, needle) <==> IContains(Lower(hay), Lower(needle))
  {
    LowerIdempotent(hay);
    LowerIdempotent(needle);
    assert IContains(Lower(hay), Lower(needle)) == Contains(Lower(Lower(hay)), Lower(Lower(needle)));
  }

  lemma IContainsIff(hay: string, needle: string)
    ensures IContains(hay, needle) <==> exists i :: OccursAt(Lower(hay), Lower(needle), i)
  {
    var h, n := Lower(hay), Lower(needle);
    ContainsIff(h, n);
    assert IContains(hay, needle) ==> exists i :: OccursAt(Lower(hay), Lower(needle), i);
    assert (exists i :: OccursAt(Lower(hay), Lower(needle), i)) ==> IContains(hay, needle);
  }
}
