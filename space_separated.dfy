/** The layout `OutputStream.writeFloats` gives a list of formatted numbers: the items in
    order, one space (0x20) between each consecutive pair, none before the first and none
    after the last. `Split` reads such a text back. */
module SpaceSeparated {
  import opened JavaNumbers

  const Space: byte := 0x20

  /** The items separated by single spaces. */
  function Join(items: seq<seq<byte>>): (r: seq<byte>)
  {
    if |items| == 0 then []
    else if |items| == 1 then items[0]
    else items[0] + [Space] + Join(items[1..])
  }

  /** Sum of the lengths of the items. */
  function TotalLength(items: seq<seq<byte>>): (r: nat)
  {
    if |items| == 0 then 0 else |items[0]| + TotalLength(items[1..])
  }

  /** Number of space bytes in `s`. */
  function Spaces(s: seq<byte>): (r: nat)
  {
    if |s| == 0 then 0 else (if s[0] == Space then 1 else 0) + Spaces(s[1..])
  }

  /** No item contains a space (true of formatted numbers). */
  predicate SpaceFree(items: seq<seq<byte>>)
  {
    forall i :: 0 <= i < |items| ==> Space !in items[i]
  }

  /** The text cut at every space; a text without spaces is one piece. */
  function Split(s: seq<byte>): (r: seq<seq<byte>>)
    ensures |r| == Spaces(s) + 1
  {
    if |s| == 0 then [[]]
    else if s[0] == Space then [[]] + Split(s[1..])
    else
      var rest := Split(s[1..]);
      [[s[0]] + rest[0]] + rest[1..]
  }

  /** Joining adds exactly max(n - 1, 0) bytes to the items' own bytes. */
  lemma {:induction false} JoinLength(items: seq<seq<byte>>)
    ensures |Join(items)| == TotalLength(items) + (if |items| == 0 then 0 else |items| - 1)
  {
    if |items| > 1 {
      JoinLength(items[1..]);
    }
  }

  lemma {:induction false} SpacesAppend(a: seq<byte>, b: seq<byte>)
    ensures Spaces(a + b) == Spaces(a) + Spaces(b)
  {
    if |a| == 0 {
      assert a + b == b;
    } else {
      assert (a + b)[1..] == a[1..] + b;
      SpacesAppend(a[1..], b);
    }
  }

  lemma {:induction false} SpaceFreeText(s: seq<byte>)
    requires Space !in s
    ensures Spaces(s) == 0
  {
    if |s| > 0 {
      SpaceFreeText(s[1..]);
    }
  }

  /** With space-free items, the text holds exactly max(n - 1, 0) spaces: one per gap. */
  lemma {:induction false} JoinSpaces(items: seq<seq<byte>>)
    requires SpaceFree(items)
    ensures Spaces(Join(items)) == if |items| == 0 then 0 else |items| - 1
  {
    if |items| == 1 {
      SpaceFreeText(items[0]);
    } else if |items| > 1 {
      SpaceFreeText(items[0]);
      SpacesAppend(items[0], [Space]);
      SpacesAppend(items[0] + [Space], Join(items[1..]));
      assert SpaceFree(items[1..]) by {
        forall i | 0 <= i < |items[1..]| ensures Space !in items[1..][i] {
          assert items[1..][i] == items[i + 1];
        }
      }
      JoinSpaces(items[1..]);
    }
  }

  /** Appending one more item adds one space and then the item: the last item is never
      followed by a space. */
  lemma {:induction false} JoinSnoc(items: seq<seq<byte>>, last: seq<byte>)
    requires |items| > 0
    ensures Join(items + [last]) == Join(items) + [Space] + last
  {
    if |items| == 1 {
      assert items + [last] == [items[0], last];
      assert ([items[0], last])[1..] == [last];
    } else {
      assert (items + [last])[1..] == items[1..] + [last];
      JoinSnoc(items[1..], last);
    }
  }

  /** The text written once the first `done` items are out: their joined text, followed by
      the space that separates them from the next item when one is still due. */
  function Progress(items: seq<seq<byte>>, done: nat): (r: seq<byte>)
    requires done <= |items|
  {
    Join(items[..done]) + (if 0 < done < |items| then [Space] else [])
  }

  /** Writing item `done` after what is already out (behind any `prefix`), then a space unless
      it is the last item, advances the progress by one. */
  lemma ProgressStep(prefix: seq<byte>, items: seq<seq<byte>>, done: nat)
    requires done < |items|
    ensures done < |items| - 1 ==>
      prefix + Progress(items, done) + items[done] + [Space] == prefix + Progress(items, done + 1)
    ensures done == |items| - 1 ==>
      prefix + Progress(items, done) + items[done] == prefix + Progress(items, done + 1)
  {
    JoinStep(items, done);
    var sep := if 0 < done then [Space] else [];
    assert Progress(items, done) == Join(items[..done]) + sep;
    assert Progress(items, done) + items[done] == Join(items[..done + 1]);
  }

  /** Once every item is out, the progress is the joined text. */
  lemma ProgressDone(items: seq<seq<byte>>)
    ensures Progress(items, |items|) == Join(items)
  {
    assert items[..|items|] == items;
  }

  /** One step of writing the items in order: the text of the first `i` items, the space that
      follows them when there are any, then item `i`, is the text of the first `i + 1` items. */
  lemma JoinStep(items: seq<seq<byte>>, i: nat)
    requires i < |items|
    ensures Join(items[..i]) + (if i > 0 then [Space] else []) + items[i] == Join(items[..i + 1])
  {
    assert items[..i + 1] == items[..i] + [items[i]];
    if i > 0 {
      JoinSnoc(items[..i], items[i]);
    } else {
      assert items[..1] == [items[0]];
    }
  }

  lemma {:induction false} SplitSpaceFree(x: seq<byte>)
    requires Space !in x
    ensures Split(x) == [x]
  {
    if |x| > 0 {
      SplitSpaceFree(x[1..]);
      assert [x[0]] + x[1..] == x;
    }
  }

  lemma {:induction false} SplitAtSpace(x: seq<byte>, y: seq<byte>)
    requires Space !in x
    ensures Split(x + [Space] + y) == [x] + Split(y)
  {
    if |x| == 0 {
      assert x + [Space] + y == [Space] + y;
      assert ([Space] + y)[1..] == y;
    } else {
      assert (x + [Space] + y)[1..] == x[1..] + [Space] + y;
      SplitAtSpace(x[1..], y);
      assert [x[0]] + x[1..] == x;
    }
  }

  /** Round trip: a non-empty list of space-free items is recovered from its joined text. */
  lemma {:induction false} SplitJoin(items: seq<seq<byte>>)
    requires |items| > 0 && SpaceFree(items)
    ensures Split(Join(items)) == items
  {
    if |items| == 1 {
      SplitSpaceFree(items[0]);
    } else {
      assert SpaceFree(items[1..]) by {
        forall i | 0 <= i < |items[1..]| ensures Space !in items[1..][i] {
          assert items[1..][i] == items[i + 1];
        }
      }
      SplitJoin(items[1..]);
      SplitAtSpace(items[0], Join(items[1..]));
      assert [items[0]] + items[1..] == items;
    }
  }
}
