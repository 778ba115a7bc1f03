/**
  Delivery of an answer to a chat thread: the text is escaped, cut into messages no longer than
  the service allows, and posted; any call may fail, with or without having taken effect.
 */
module Delivery {
  import opened Common

  const MAX_SLACK: nat := 3900
  const PARTIAL_SUFFIX: string := "\n\n:warning: Answer " + "truncated; mention " + "Carl again to retry."
  const ARROW: string := ":arrow_down: Answer posted below."

  // ---------------------------------------------------------------- escaping

  /** Python's `str.replace` of a one-character string. */
  function Replace(s: string, c: char, entity: string): string {
    if s == "" then "" else (if s[0] == c then entity else [s[0]]) + Replace(s[1..], c, entity)
  }

  function Escape(text: string): string {
    Replace(Replace(Replace(text, '&', "&amp;"), '<', "&lt;"), '>', "&gt;")
  }

  function EscapeChar(c: char): string {
    match c
    case '&' => "&amp;"
    case '<' => "&lt;"
    case '>' => "&gt;"
    case _ => [c]
  }

  /** Every character escaped on its own. */
  function Charwise(text: string): string {
    if text == "" then "" else EscapeChar(text[0]) + Charwise(text[1..])
  }

  function Unescape(s: string): string {
    if s == "" then ""
    else if "&amp;" <= s then "&" + Unescape(s[5..])
    else if "&lt;" <= s then "<" + Unescape(s[4..])
    else if "&gt;" <= s then ">" + Unescape(s[4..])
    else [s[0]] + Unescape(s[1..])
  }

  lemma {:induction false} ReplaceConcat(s: string, t: string, c: char, entity: string)
    ensures Replace(s + t, c, entity) == Replace(s, c, entity) + Replace(t, c, entity)
  {
    if s == "" {
      assert s + t == t;
    } else {
      assert (s + t)[1..] == s[1..] + t;
      ReplaceConcat(s[1..], t, c, entity);
    }
  }

  lemma {:induction false} ReplaceNone(s: string, c: char, entity: string)
    requires c !in s
    ensures Replace(s, c, entity) == s
  {
    if s != "" {
      ReplaceNone(s[1..], c, entity);
    }
  }

  /** The three passes never touch each other's output. */
  lemma {:induction false} EscapeIsCharwise(text: string)
    ensures Escape(text) == Charwise(text)
  {
    if text != "" {
      var c, rest := text[0], text[1..];
      EscapeIsCharwise(rest);
      var one := if c == '&' then "&amp;" else [c];
      var r1 := Replace(rest, '&', "&amp;");
      ReplaceConcat(one, r1, '<', "&lt;");
      var two := if c == '<' then "&lt;" else one;
      assert Replace(one, '<', "&lt;") == two by {
        if c == '<' { assert one[1..] == ""; } else { ReplaceNone(one, '<', "&lt;"); }
      }
      ReplaceConcat(two, Replace(r1, '<', "&lt;"), '>', "&gt;");
      assert Replace(two, '>', "&gt;") == EscapeChar(c) by {
        if c == '>' { assert two[1..] == ""; } else { ReplaceNone(two, '>', "&gt;"); }
      }
    }
  }

  lemma UnescapeOne(c: char, rest: string)
    ensures Unescape(EscapeChar(c) + rest) == [c] + Unescape(rest)
  {
    var s := EscapeChar(c) + rest;
    assert s[|EscapeChar(c)|..] == rest;
    assert EscapeChar(c) <= s && s[0] == EscapeChar(c)[0] && (c == '<' || c == '>' ==> s[1] == EscapeChar(c)[1]);
  }

  lemma {:induction false} UnescapeCharwise(text: string)
    ensures Unescape(Charwise(text)) == text
  {
    if text != "" {
      var c, rest := text[0], Charwise(text[1..]);
      UnescapeCharwise(text[1..]);
      UnescapeOne(c, rest);
    }
  }

  lemma RoundTrip(text: string)
    ensures Unescape(Escape(text)) == text
  {
    EscapeIsCharwise(text);
    UnescapeCharwise(text);
  }

  lemma {:induction false} CharwiseConcat(s: string, t: string)
    ensures Charwise(s + t) == Charwise(s) + Charwise(t)
  {
    if s == "" {
      assert s + t == t;
    } else {
      assert (s + t)[1..] == s[1..] + t;
      CharwiseConcat(s[1..], t);
    }
  }

  lemma CharwiseAround(before: string, c: char, after: string)
    ensures Charwise(before + [c] + after) == Charwise(before) + EscapeChar(c) + Charwise(after)
  {
    CharwiseConcat(before + [c], after);
    CharwiseConcat(before, [c]);
    CharwiseOne(c);
  }

  lemma CharwiseOne(c: char)
    ensures Charwise([c]) == EscapeChar(c)
  {
    assert [c][1..] == "";
  }

  lemma Rejoin(text: string, v: nat)
    requires v < |text|
    ensures text[..v] + [text[v]] + text[v + 1..] == text
  {
  }

  // ---------------------------------------------------------------- splitting

  /** A slice bound, as Python reads it: negative counts from the end. */
  function Bound(i: int, n: nat): (r: nat)
    ensures 0 <= i <= n ==> r == i
  {
    if i > n then n else if i >= 0 then i else if i + n >= 0 then i + n else 0
  }

  /** Python's `text.rfind("&", lo, hi)`. */
  function LastAmp(text: string, lo: nat, hi: nat): (r: int)
    requires hi <= |text|
    ensures r == -1 || (lo <= r < hi && text[r] == '&')
    ensures forall i :: lo <= i < hi && i > r ==> text[i] != '&'
  {
    if hi <= lo then -1 else if text[hi - 1] == '&' then hi - 1 else LastAmp(text, lo, hi - 1)
  }

  function SplitAt(text: string, limit: nat): (cut: nat)
    ensures cut <= |text| && cut <= limit
    ensures |text| <= limit ==> cut == |text|
  {
    if |text| <= limit then |text|
    else
      var amp := LastAmp(text, Bound(limit - 4, |text|), limit);
      if amp != -1 && ';' !in text[amp..limit] then amp else limit
  }

  /** How many leading characters of `text` fit in `limit` once escaped. */
  function WholeChars(text: string, limit: nat): (v: nat)
    ensures v <= |text|
  {
    if text == "" || |EscapeChar(text[0])| > limit then 0
    else 1 + WholeChars(text[1..], limit - |EscapeChar(text[0])|)
  }

  lemma {:induction false} WholeCharsBound(text: string, limit: nat)
    ensures var v := WholeChars(text, limit);
      && |Charwise(text[..v])| <= limit
      && (v < |text| ==> |Charwise(text[..v])| + |EscapeChar(text[v])| > limit)
  {
    var v := WholeChars(text, limit);
    if v > 0 {
      WholeCharsBound(text[1..], limit - |EscapeChar(text[0])|);
      assert text[..v][1..] == text[1..][..v - 1];
    }
  }

  lemma WholeCharsFit(text: string, limit: nat)
    ensures var v := WholeChars(text, limit);
      && Charwise(text) == Charwise(text[..v]) + Charwise(text[v..]) && |Charwise(text[..v])| <= limit
      && (v < |text| ==> |Charwise(text[..v])| + |EscapeChar(text[v])| > limit)
      && (v == |text| <==> |Charwise(text)| <= limit)
  {
    var v := WholeChars(text, limit);
    WholeCharsBound(text, limit);
    CharwiseConcat(text[..v], text[v..]);
    assert text[..v] + text[v..] == text;
  }

  /** An ampersand of escaped text opens an entity that is closed before the text ends. */
  lemma {:induction false} AmpIsClosed(text: string, i: nat)
    requires i < |Charwise(text)| && Charwise(text)[i] == '&'
    ensures ';' in Charwise(text)[i..]
  {
    var n := |EscapeChar(text[0])|;
    if i < n {
      assert i == 0;
      assert Charwise(text)[n - 1] == ';';
      assert Charwise(text)[i..][n - 1] == ';';
    } else {
      AmpIsClosed(text[1..], i - n);
      assert Charwise(text)[i..] == Charwise(text[1..])[i - n..];
    }
  }

  lemma AllAmpsClosed(text: string)
    ensures forall i :: 0 <= i < |Charwise(text)| && Charwise(text)[i] == '&' ==> ';' in Charwise(text)[i..]
  {
    forall i | 0 <= i < |Charwise(text)| && Charwise(text)[i] == '&' ensures ';' in Charwise(text)[i..] {
      AmpIsClosed(text, i);
    }
  }

  lemma SplitClosed(s: string, head: string)
    requires head <= s && |head| < |s| && |head| >= 4
    requires forall i :: 0 <= i < |head| && head[i] == '&' ==> ';' in head[i..]
    ensures SplitAt(s, |head|) == |head|
  {
    var amp := LastAmp(s, |head| - 4, |head|);
    if amp != -1 {
      assert s[amp..|head|] == head[amp..];
    }
  }

  lemma CutBetween(text: string, v: nat, limit: nat)
    requires v < |text| && limit >= 4 && |Charwise(text[..v])| == limit
    ensures limit < |Charwise(text)| && SplitAt(Charwise(text), limit) == limit
  {
    Rejoin(text, v);
    CharwiseAround(text[..v], text[v], text[v + 1..]);
    var head, entity, rest := Charwise(text[..v]), EscapeChar(text[v]), Charwise(text[v + 1..]);
    AllAmpsClosed(text[..v]);
    assert head <= head + entity + rest;
    SplitClosed(head + entity + rest, head);
  }

  lemma SplitOpen(head: string, entity: string, rest: string, limit: nat)
    requires |head| < limit < |head| + |entity| && limit >= 4 && |entity| <= 5
    requires entity[0] == '&' && forall j :: 0 < j < |entity| - 1 ==> entity[j] != '&' && entity[j] != ';'
    ensures SplitAt(head + entity + rest, limit) == |head|
  {
    var s, pos := head + entity + rest, |head|;
    forall i | pos <= i < limit ensures s[i] == entity[i - pos] {}
    var amp := LastAmp(s, limit - 4, limit);
    assert s[pos] == entity[0];
    forall i | pos < i < limit ensures s[i] != '&' {
      assert s[i] == entity[i - pos];
    }
    assert forall i :: 0 <= i < limit - pos ==> s[pos..limit][i] == entity[i];
  }

  lemma CutInside(text: string, v: nat, limit: nat)
    requires v < |text| && limit >= 4
    requires |Charwise(text[..v])| < limit < |Charwise(text[..v])| + |EscapeChar(text[v])|
    ensures limit < |Charwise(text)| && SplitAt(Charwise(text), limit) == |Charwise(text[..v])|
  {
    var head, entity, rest := Charwise(text[..v]), EscapeChar(text[v]), Charwise(text[v + 1..]);
    Rejoin(text, v);
    CharwiseAround(text[..v], text[v], text[v + 1..]);
    SplitOpen(head, entity, rest, limit);
  }

  /** The split falls after the longest run of whole characters that fits. */
  lemma SplitIsAtWholeChar(text: string, limit: nat)
    requires limit >= 4
    ensures SplitAt(Charwise(text), limit) == |Charwise(text[..WholeChars(text, limit)])|
  {
    var s := Charwise(text);
    var v := WholeChars(text, limit);
    WholeCharsFit(text, limit);
    var pos := |Charwise(text[..v])|;
    if |s| <= limit {
      assert text[..v] == text;
    } else if pos == limit {
      CutBetween(text, v, limit);
    } else {
      CutInside(text, v, limit);
    }
  }

  lemma SplitCharwise(text: string, limit: nat)
    returns (head: string, tail: string)
    requires limit >= 5
    ensures text == head + tail && (text != "" ==> head != "")
    ensures var cut := SplitAt(Charwise(text), limit);
      Charwise(text)[..cut] == Charwise(head) && Charwise(text)[cut..] == Charwise(tail)
  {
    var v := WholeChars(text, limit);
    head, tail := text[..v], text[v..];
    SplitIsAtWholeChar(text, limit);
    WholeCharsFit(text, limit);
  }

  /** What one split does to escaped text: neither part cuts an entity, and a wide enough one advances. */
  lemma SplitEscaped(text: string, limit: nat)
    returns (head: string, tail: string)
    requires limit >= 5
    ensures text == head + tail && (text != "" ==> head != "")
    ensures var cut := SplitAt(Escape(text), limit);
      Escape(text)[..cut] == Escape(head) && Escape(text)[cut..] == Escape(tail)
  {
    EscapeIsCharwise(text);
    head, tail := SplitCharwise(text, limit);
    EscapeIsCharwise(head);
    EscapeIsCharwise(tail);
  }

  // ---------------------------------------------------------------- delivering

  datatype Status = Complete | Partial | Failed

  function Concat(parts: seq<string>): string {
    if parts == [] then "" else Concat(parts[..|parts| - 1]) + parts[|parts| - 1]
  }

  function UnescapeAll(parts: seq<string>): (r: seq<string>)
    ensures |r| == |parts| && forall i :: 0 <= i < |r| ==> r[i] == Unescape(parts[i])
  {
    seq(|parts|, i requires 0 <= i < |parts| => Unescape(parts[i]))
  }

  /** The messages say `told` once unescaped, each is a whole piece of it, and each fits. */
  ghost predicate Tells(chunks: seq<string>, told: string) {
    && Concat(UnescapeAll(chunks)) == told
    && (forall i :: 0 <= i < |chunks| ==> |chunks[i]| <= MAX_SLACK && Whole(chunks[i]))
  }

  /** Escaped text with no entity cut. */
  ghost predicate Whole(chunk: string) {
    chunk == Escape(Unescape(chunk))
  }

  lemma TellMore(chunks: seq<string>, told: string, piece: string)
    requires Tells(chunks, told) && |Escape(piece)| <= MAX_SLACK
    ensures Tells(chunks + [Escape(piece)], told + piece)
  {
    RoundTrip(piece);
    var more := chunks + [Escape(piece)];
    assert UnescapeAll(more) == UnescapeAll(chunks) + [piece];
    assert UnescapeAll(more)[..|chunks|] == UnescapeAll(chunks);
  }

  /** What one call sends of a text. */
  function Kept(text: string): (r: string)
    ensures |text| <= MAX_SLACK ==> r == text
  {
    text[..SplitAt(text, MAX_SLACK)]
  }

  /** Nothing, or one message whose arrival was not acknowledged. */
  ghost predicate UnheardOf(extra: seq<string>) {
    |extra| <= 1 && forall i :: 0 <= i < |extra| ==> |extra[i]| <= MAX_SLACK && Whole(extra[i])
  }

  /** What a placeholder whose update was not acknowledged may say. */
  ghost predicate Stale(p: string, was: string, first: string) {
    p == was || p == ARROW || (p <= first && Whole(p))
  }

  /**
    `chunks` stand in the thread: the first in the placeholder or below it, the others after it in
    order, then at most what was not acknowledged. Nothing else changed.
   */
  ghost predicate Stands(
      before: seq<string>, now: seq<string>, ts: nat, at: nat, chunks: seq<string>, extra: seq<string>)
  {
    && ts < |before| && chunks != [] && UnheardOf(extra)
    && if at == ts then now == before[ts := chunks[0]] + chunks[1..] + extra
       else at == |before| && exists p :: Stale(p, before[ts], chunks[0]) && now == before[ts := p] + chunks + extra
  }

  lemma StandsLonger(before: seq<string>, mid: seq<string>, now: seq<string>, ts: nat, at: nat, first: string,
      chunks: seq<string>, extra: seq<string>)
    requires Stands(before, mid, ts, at, [first], []) && [first] <= chunks && now == mid + chunks[1..] + extra
    requires UnheardOf(extra)
    ensures Stands(before, now, ts, at, chunks, extra)
  {
    if at != ts {
      var p :| Stale(p, before[ts], first) && mid == before[ts := p] + [first] + [];
      assert now == before[ts := p] + chunks + extra;
    }
  }

  lemma FirstRewritten(before: seq<string>, mid: seq<string>, now: seq<string>, ts: nat, at: nat,
      chunks: seq<string>, first: string, extra: seq<string>)
    requires Stands(before, mid, ts, at, chunks, extra) && chunks[0] <= first
    requires at < |mid| ==> now == mid || now == mid[at := first]
    ensures at < |mid|
    ensures Stands(before, now, ts, at, chunks, extra) || Stands(before, now, ts, at, chunks[0 := first], extra)
  {
    if now != mid {
      if at == ts {
        assert now == before[ts := first] + chunks[1..] + extra;
      } else {
        var p :| Stale(p, before[ts], chunks[0]) && mid == before[ts := p] + chunks + extra;
        assert Stale(p, before[ts], chunks[0 := first][0]);
        assert now == before[ts := p] + chunks[0 := first] + extra;
      }
    }
  }

  /** Neither attempt at the first chunk was acknowledged. */
  ghost predicate NothingHeard(before: seq<string>, now: seq<string>, ts: nat, first: string) {
    ts < |before| && (
      || now == before || now == before[ts := first]
      || now == before + [first] || now == before[ts := first] + [first])
  }

  /** `chunks` tell some prefix of `text` after `sent`; all of it when `ok`. */
  ghost predicate ToldOn(chunks: seq<string>, sent: seq<string>, text: string, ok: bool) {
    sent <= chunks && exists said :: Tells(chunks, said) && said <= text && (ok ==> said == text)
  }

  ghost predicate Appended(before: seq<string>, now: seq<string>, chunks: seq<string>, ok: bool) {
    exists extra :: UnheardOf(extra) && now == before + chunks + extra && (ok ==> extra == [])
  }

  /** `chunks` have told `said`; `more` is the escaped rest. */
  ghost predicate Underway(chunks: seq<string>, said: string, left: string, text: string, more: string) {
    Tells(chunks, said) && text == said + left && more == Escape(left)
  }

  lemma NextChunk(chunks: seq<string>, said: string, left: string, text: string, more: string)
    returns (said': string, left': string)
    requires Underway(chunks, said, left, text, more) && more != ""
    ensures var cut := SplitAt(more, MAX_SLACK);
      cut > 0 && Kept(more[..cut]) == more[..cut] && Underway(chunks + [more[..cut]], said', left', text, more[cut..])
    ensures said <= said' <= text && said <= text
  {
    var head, tail := SplitEscaped(left, MAX_SLACK);
    RoundTrip(head);
    TellMore(chunks, said, head);
    said', left' := said + head, tail;
  }

  /** The thread as the chat service holds it; a message's timestamp is its position. */
  class Thread {
    var messages: seq<string>

    constructor (before: seq<string>)
      ensures messages == before
    {
      messages := before;
    }

    /** Posts what fits. A call that raises may still have taken effect. */
    method Post(text: string) returns (ts: Option<nat>)
      modifies this
      ensures if ts.Some? then messages == old(messages) + [Kept(text)] && ts.value == |old(messages)|
        else messages == old(messages) || messages == old(messages) + [Kept(text)]
    {
      var cut := SplitAt(text, MAX_SLACK);
      var raises, applied: bool := *, *;
      ts := if raises then None else Some(|messages|);
      if !raises || applied {
        messages := messages + [text[..cut]];
      }
    }

    method Update(ts: nat, text: string) returns (ok: bool)
      requires ts < |messages|
      modifies this
      ensures messages == old(messages)[ts := Kept(text)] || (!ok && messages == old(messages))
    {
      var cut := SplitAt(text, MAX_SLACK);
      var applied: bool := *;
      ok := *;
      if ok || applied {
        messages := messages[ts := text[..cut]];
      }
    }

    /** The first chunk: into the placeholder, or reposted below it. `at` is where it ended up. */
    method DeliverFirst(ts: nat, first: string) returns (at: Option<nat>)
      requires ts < |messages| && |first| <= MAX_SLACK && Whole(first)
      modifies this
      ensures at.Some? ==> Stands(old(messages), messages, ts, at.value, [first], [])
      ensures at.None? ==> NothingHeard(old(messages), messages, ts, first)
    {
      ghost var before := messages;
      var ok := Update(ts, first);
      if ok {
        assert messages == before[ts := first] + [first][1..] + [];
        return Some(ts);
      }
      ghost var p := messages[ts];
      assert messages == before[ts := p];
      at := Post(first);
      if at.None? {
        return None;
      }
      var told := Update(ts, ARROW);
      ghost var q := messages[ts];
      assert Stale(q, before[ts], [first][0]);
      assert messages == before[ts := q] + [first] + [];
    }

    /** The chunks after the first, one post each, until one fails. */
    method DeliverRest(rest: string, ghost text: string, ghost told: string, ghost left0: string, ghost sent: seq<string>)
      returns (ok: bool, ghost chunks: seq<string>)
      requires Tells(sent, told) && text == told + left0 && rest == Escape(left0)
      modifies this
      ensures ToldOn(chunks, sent, text, ok) && Appended(old(messages), messages, chunks[|sent|..], ok)
      ensures rest == "" ==> ok
    {
      var more := rest;
      chunks, ok := sent, true;
      ghost var said, left := told, left0;
      while more != ""
        invariant sent <= chunks && Underway(chunks, said, left, text, more) && (rest == "" ==> more == "")
        invariant messages == old(messages) + chunks[|sent|..]
        decreases |more|
      {
        said, left := NextChunk(chunks, said, left, text, more);
        var cut := SplitAt(more, MAX_SLACK);
        ghost var before := messages;
        var ts := Post(more[..cut]);
        if ts.None? {
          ok := false;
          assert Appended(old(messages), messages, chunks[|sent|..], false) by {
            var extra := messages[|before|..];
            assert UnheardOf(extra) && messages == old(messages) + chunks[|sent|..] + extra;
          }
          return;
        }
        chunks := chunks + [more[..cut]];
        more := more[cut..];
      }
      RoundTrip(left);
      assert messages == old(messages) + chunks[|sent|..] + [];
    }

    /**
      The whole delivery. `chunks` are the messages known to have arrived: on Complete they tell
      the whole text, on Partial a prefix of it, and they stand in the thread in order. A partial
      answer's first message may have gained the warning, of which nothing is cut.
     */
    method Deliver(ts: nat, raw: string) returns (status: Status, ghost chunks: seq<string>, ghost at: nat)
      requires ts < |messages|
      modifies this
      ensures status.Complete? ==> Tells(chunks, raw) && Stands(old(messages), messages, ts, at, chunks, [])
      ensures status.Partial? ==> PartlyTold(old(messages), messages, ts, at, chunks, raw)
      ensures status.Failed? ==> chunks == []
      ensures status.Failed? ==> exists head ::
        head <= raw && |Escape(head)| <= MAX_SLACK && NothingHeard(old(messages), messages, ts, Escape(head))
    {
      ghost var before := messages;
      var text := Escape(raw);
      var firstLimit := if |text| > MAX_SLACK then MAX_SLACK - |PARTIAL_SUFFIX| else MAX_SLACK;
      ghost var head, tail := SplitEscaped(raw, firstLimit);
      var cut := SplitAt(text, firstLimit);
      var first := text[..cut];
      assert Whole(first) by { RoundTrip(head); }
      var where := DeliverFirst(ts, first);
      chunks, at := [], 0;
      if where.None? {
        assert head <= raw && first == Escape(head);
        return Failed, [], 0;
      }
      FirstTold(head);
      var ok;
      ok, chunks := FinishDelivery(before, ts, where.value, first, text[cut..], raw, head, tail);
      status, at := if ok then Complete else Partial, where.value;
    }

    method FinishDelivery(ghost before: seq<string>, ghost ts: nat, at: nat, first: string, rest: string,
        ghost raw: string, ghost head: string, ghost tail: string)
      returns (ok: bool, ghost chunks: seq<string>)
      requires Stands(before, messages, ts, at, [first], []) && Tells([first], head)
      requires raw == head + tail && rest == Escape(tail) && (rest != "" ==> |first| + |PARTIAL_SUFFIX| <= MAX_SLACK)
      modifies this
      ensures if ok then Tells(chunks, raw) && Stands(before, messages, ts, at, chunks, [])
              else PartlyTold(before, messages, ts, at, chunks, raw)
    {
      ghost var start := messages;
      ok, chunks := DeliverRest(rest, raw, head, tail, [first]);
      ghost var extra :| UnheardOf(extra) && messages == start + chunks[1..] + extra && (ok ==> extra == []);
      StandsLonger(before, start, messages, ts, at, first, chunks, extra);
      if !ok {
        ghost var soFar := messages;
        FirstRewritten(before, soFar, soFar, ts, at, chunks, first, extra);
        WarnedIsWhole(first);
        var warned := Update(at, first + PARTIAL_SUFFIX);
        FirstRewritten(before, soFar, messages, ts, at, chunks, first + PARTIAL_SUFFIX, extra);
        assert Warned(before, messages, ts, at, chunks, extra);
        assert ToldOn(chunks, [], raw, false);
      }
    }
  }

  predicate Unescaped(c: char) { c != '&' && c != '<' && c != '>' }

  lemma {:induction false} PlainIsCharwise(text: string)
    requires forall c :: c in text ==> Unescaped(c)
    ensures Charwise(text) == text
  {
    if text != "" {
      PlainIsCharwise(text[1..]);
      assert text[0] in text && text == [text[0]] + text[1..];
    }
  }

  lemma PlainKeepsWhole(first: string, plain: string)
    requires Whole(first) && forall c :: c in plain ==> Unescaped(c)
    ensures Whole(first + plain)
  {
    var u := Unescape(first);
    PlainIsCharwise(plain);
    EscapeIsCharwise(u);
    CharwiseConcat(u, plain);
    EscapeIsCharwise(u + plain);
    assert Escape(u + plain) == first + plain;
    RoundTrip(u + plain);
  }

  lemma SuffixIsPlain()
    ensures forall c :: c in PARTIAL_SUFFIX ==> Unescaped(c)
  {
    assert forall c :: c in "\n\n:warning: Answer " ==> Unescaped(c);
    assert forall c :: c in "truncated; mention " ==> Unescaped(c);
    assert forall c :: c in "Carl again to retry." ==> Unescaped(c);
  }

  /** The warning cuts no entity of the message that gains it. */
  lemma WarnedIsWhole(first: string)
    requires Whole(first)
    ensures Whole(first + PARTIAL_SUFFIX)
  {
    SuffixIsPlain();
    PlainKeepsWhole(first, PARTIAL_SUFFIX);
  }

  lemma FirstTold(head: string)
    requires |Escape(head)| <= MAX_SLACK
    ensures Tells([Escape(head)], head)
  {
    assert Tells([], "");
    TellMore([], "", head);
    assert "" + head == head && [] + [Escape(head)] == [Escape(head)];
  }

  /** Some prefix of the text arrived; the first message may carry the warning. */
  ghost predicate PartlyTold(before: seq<string>, now: seq<string>, ts: nat, at: nat, chunks: seq<string>, raw: string) {
    && ToldOn(chunks, [], raw, false)
    && exists extra :: Warned(before, now, ts, at, chunks, extra)
  }

  ghost predicate Warned(before: seq<string>, now: seq<string>, ts: nat, at: nat, chunks: seq<string>, extra: seq<string>) {
    && chunks != []
    && (|| Stands(before, now, ts, at, chunks, extra)
        || (|chunks[0] + PARTIAL_SUFFIX| <= MAX_SLACK && Whole(chunks[0] + PARTIAL_SUFFIX)
            && Stands(before, now, ts, at, chunks[0 := chunks[0] + PARTIAL_SUFFIX], extra)))
  }
}
