/**
 * The page-by-page catalog downloads. The server's answers to the
 * successive requests (`page=1`, `page=2`, ...) are the input; a run
 * that would go on past the last answer given stops there.
 */
module Paging {

  /** One answer: the items of a page, or a refusal (a status other than 200, or a failed request where the script catches it). */
  datatype Reply<T> = Items(items: seq<T>) | Refused(status: int)

  /**
   * The pagination loop: a refusal or an empty page ends it; any other
   * page is appended, and a page shorter than `size` ends it after that.
   */
  function Pages<T>(replies: seq<Reply<T>>, size: nat): seq<T>
    decreases |replies|
  {
    if replies == [] then []
    else match replies[0]
      case Refused(_) => []
      case Items(ps) =>
        if ps == [] then []
        else if |ps| < size then ps
        else ps + Pages(replies[1..], size)
  }

  /** The items of a run of answers, in order, refusals contributing nothing. */
  function Concat<T>(replies: seq<Reply<T>>): seq<T>
    decreases |replies|
  {
    if replies == [] then []
    else (if replies[0].Items? then replies[0].items else []) + Concat(replies[1..])
  }

  /** A page that gets read: answered with items. */
  predicate Read<T>(r: Reply<T>)
  {
    r.Items? && r.items != []
  }

  /**
   * What the download keeps: the items of the first `m` answers, in
   * order, where every one of those answers is a non-empty page, all but
   * the last are full, and the loop had a reason to stop after them (no
   * more answers, a short page, or a refusal or empty page next).
   */
  lemma {:induction false} PagesShape<T>(replies: seq<Reply<T>>, size: nat) returns (m: nat)
    ensures m <= |replies|
    ensures Pages(replies, size) == Concat(replies[..m])
    ensures forall j :: 0 <= j < m ==> Read(replies[j])
    ensures forall j :: 0 <= j < m - 1 ==> replies[j].Items? && |replies[j].items| >= size
    ensures m == |replies| || (m > 0 && replies[m - 1].Items? && |replies[m - 1].items| < size) || !Read(replies[m])
    decreases |replies|
  {
    if replies == [] {
      m := 0;
    } else if !Read(replies[0]) {
      m := 0;
      assert replies[..0] == [];
    } else if |replies[0].items| < size {
      m := 1;
      assert replies[..1][1..] == [];
    } else {
      var m' := PagesShape(replies[1..], size);
      m := m' + 1;
      assert Pages(replies, size) == replies[0].items + Pages(replies[1..], size);
      assert replies[..m][0] == replies[0];
      assert replies[..m][1..] == replies[1..][..m'];
      assert Concat(replies[..m]) == replies[0].items + Concat(replies[1..][..m']);
      assert forall j :: 1 <= j < m ==> replies[j] == replies[1..][j - 1];
    }
  }

  /** A page shorter than the page size ends the download right after it. */
  lemma ShortPageEnds<T>(size: nat, ps: seq<T>, later: seq<Reply<T>>)
    requires 0 < |ps| < size
    ensures Pages([Items(ps)] + later, size) == ps
  {
  }

  /** A refusal ends the download, whatever answers would have followed. */
  lemma RefusalEnds<T>(replies: seq<Reply<T>>, size: nat, status: int)
    ensures Pages([Refused(status)] + replies, size) == []
  {
  }

  /** The loop over the answers: `page` counts the requests made. */
  method Paginate<T>(replies: seq<Reply<T>>, size: nat) returns (all: seq<T>)
    ensures all == Pages(replies, size)
  {
    all := [];
    var page := 0;
    while page < |replies|
      invariant 0 <= page <= |replies|
      invariant Pages(replies, size) == all + Pages(replies[page..], size)
      decreases |replies| - page
    {
      var reply := replies[page];
      var rest := replies[page..];
      assert rest[0] == reply && rest[1..] == replies[page + 1..];
      if reply.Refused? || reply.items == [] {
        assert Pages(rest, size) == [];
        return;
      }
      all := all + reply.items;
      page := page + 1;
      if |reply.items| < size {
        assert Pages(rest, size) == reply.items;
        return;
      }
      assert Pages(rest, size) == reply.items + Pages(replies[page..], size);
    }
  }
}
