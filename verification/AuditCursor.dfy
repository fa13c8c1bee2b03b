/** The audit-log cursor of the on-box helper (`read_new_audit_text`). */
module AuditCursor {
  import opened Common
  import opened Bytes
  import opened Text
  import U = Unicode

  // `parse` stands for `int(s.strip() or "0")`, and gives None where that raises: it reads what `str` wrote, and
  // an empty file as 0. How it takes other texts, and so what another program may write, is left open.
  ghost predicate IntReader(parse: string -> Option<int>) {
    (forall n: nat :: parse(Numeral(n, 10)) == Some(n)) && parse("") == Some(0)
  }

  lemma DecimalIsIntReader()
    ensures IntReader(s => if s == "" then Some(0) else ReadDecimal(s))
  {
    forall n: nat ensures ReadDecimal(Numeral(n, 10)) == Some(n) && Numeral(n, 10) != "" {
      NumeralRoundTrip(n, 10);
      NumeralHasDigits(n, 10);
    }
    hide Numeral, ReadDecimal;
  }

  // The stored cursor as a number; a missing or unreadable file counts as 0.
  function OffsetOf(parse: string -> Option<int>, cursor: Option<string>): int {
    match cursor
    case None => 0
    case Some(s) => match parse(s) case None => 0 case Some(n) => n
  }

  // What becomes of the new cursor: written; refused before the file is opened, with the old one kept; or lost
  // after the file was opened and emptied. A poll that finds no log is refused.
  datatype Storage = Written | Refused | Emptied

  datatype Poll = Poll(log: seq<Byte>, storage: Storage)

  // What a poll reads: everything from the cursor on, or everything if the log has become shorter.
  function Unread(log: seq<Byte>, offset: nat): seq<Byte> {
    if offset > |log| then log else log[offset..]
  }

  // A poll delivers nothing when it cannot store the new cursor, or cannot seek to a negative one.
  function Delivers(parse: string -> Option<int>, cursor: Option<string>, p: Poll): seq<Byte> {
    if OffsetOf(parse, cursor) >= 0 && p.storage == Written then Unread(p.log, OffsetOf(parse, cursor)) else []
  }

  function Advance(parse: string -> Option<int>, cursor: Option<string>, p: Poll): Option<string> {
    if OffsetOf(parse, cursor) < 0 then cursor
    else match p.storage
      case Written => Some(Numeral(|p.log|, 10))
      case Refused => cursor
      case Emptied => Some("")
  }

  class CursorFile {
    var cursor: Option<string>

    method ReadNewAuditText(parse: string -> Option<int>, log: seq<Byte>, storage: Storage) returns (text: string)
      modifies this
      ensures text == U.DecodeUtf8(Delivers(parse, old(cursor), Poll(log, storage)))
      ensures cursor == Advance(parse, old(cursor), Poll(log, storage))
    {
      hide U.DecodeUtf8, Numeral, OffsetOf;
      U.DecodeNothing();
      var offset := OffsetOf(parse, cursor);
      if offset > |log| {
        offset := 0;
      }
      if offset < 0 || storage == Refused {
        return "";
      }
      var data := log[offset..];
      var newOffset := offset + |data|;
      if storage == Emptied {
        cursor := Some("");
        return "";
      }
      cursor := Some(Numeral(newOffset, 10));
      assert log[0..] == log;
      text := U.DecodeUtf8(data);
    }
  }

  // Where a cursor file says reading stopped: at 0 if it is missing or no number.
  predicate StandsAt(parse: string -> Option<int>, cursor: Option<string>, n: int) {
    if cursor == None || parse(cursor.value) == None then n == 0 else parse(cursor.value) == Some(n)
  }

  /** What a poll delivers and where it leaves the cursor. If the new cursor is written, it delivers the log from the
      cursor on, or all of it if the cursor is beyond its end, and the cursor stands at the end of the log. If the write
      is refused, or the cursor is negative, nothing changes; if it fails half way, the cursor is back at 0. Both deliver
      nothing. */
  lemma PollEffect(parse: string -> Option<int>, cursor: Option<string>, p: Poll, n: int)
    requires IntReader(parse) && StandsAt(parse, cursor, n)
    ensures var delivered, after := Delivers(parse, cursor, p), Advance(parse, cursor, p);
      if n < 0 || p.storage == Refused then delivered == [] && after == cursor
      else if p.storage == Emptied then delivered == [] && StandsAt(parse, after, 0)
      else delivered == (if n <= |p.log| then p.log[n..] else p.log) && StandsAt(parse, after, |p.log|)
  {
    hide Numeral;
  }

  // ---- runs of polls ----

  // What each poll delivers.
  function Pieces(parse: string -> Option<int>, cursor: Option<string>, polls: seq<Poll>): seq<seq<Byte>>
    decreases polls
  {
    if polls == [] then [] else [Delivers(parse, cursor, polls[0])] + Pieces(parse, Advance(parse, cursor, polls[0]), polls[1..])
  }

  function LastCursor(parse: string -> Option<int>, cursor: Option<string>, polls: seq<Poll>): Option<string>
    decreases polls
  {
    if polls == [] then cursor else LastCursor(parse, Advance(parse, cursor, polls[0]), polls[1..])
  }

  // The log only grows from one poll to the next.
  ghost predicate Growing(from: seq<Byte>, polls: seq<Poll>)
    decreases polls
  {
    polls != [] ==> from <= polls[0].log && Growing(polls[0].log, polls[1..])
  }

  function LastLog(from: seq<Byte>, polls: seq<Poll>): seq<Byte> {
    if polls == [] then from else polls[|polls| - 1].log
  }

  // Where the last written poll ended, starting from `reached`.
  function Reached(reached: nat, polls: seq<Poll>): nat
    decreases polls
  {
    if polls == [] then reached
    else Reached(if polls[0].storage == Written then |polls[0].log| else reached, polls[1..])
  }

  // No written poll follows the loss of a cursor that was past the beginning.
  predicate NeverRewound(reached: nat, lost: bool, polls: seq<Poll>)
    decreases polls
  {
    polls != [] ==>
      match polls[0].storage
      case Written => !(lost && reached > 0) && NeverRewound(|polls[0].log|, false, polls[1..])
      case Refused => NeverRewound(reached, lost, polls[1..])
      case Emptied => NeverRewound(reached, true, polls[1..])
  }

  lemma StoredOffset(parse: string -> Option<int>, n: nat)
    requires IntReader(parse)
    ensures OffsetOf(parse, Some(Numeral(n, 10))) == n && OffsetOf(parse, Some("")) == 0
  {
    hide Numeral;
  }

  lemma {:induction false} LogGrows(from: seq<Byte>, polls: seq<Poll>)
    requires Growing(from, polls)
    ensures from <= LastLog(from, polls)
    decreases polls
  {
    if polls != [] {
      LogGrows(polls[0].log, polls[1..]);
      assert LastLog(polls[0].log, polls[1..]) == LastLog(from, polls);
    }
  }

  lemma Joined(all: seq<Byte>, log: seq<Byte>, a: nat, b: nat, c: nat)
    requires a <= b <= |log| && log <= all && b <= c <= |all|
    ensures log[a..b] + all[b..c] == all[a..c]
  {
    assert log[a..b] == all[a..b];
  }

  // One poll: where it leaves the cursor, and what it delivers.
  lemma PollStep(parse: string -> Option<int>, from: seq<Byte>, cursor: Option<string>, p: Poll, reached: nat, lost: bool)
    requires IntReader(parse)
    requires OffsetOf(parse, cursor) == (if lost then 0 else reached) && reached <= |from| && from <= p.log
    ensures var next := Advance(parse, cursor, p);
      match p.storage
      case Written => OffsetOf(parse, next) == |p.log| && Delivers(parse, cursor, p) == p.log[OffsetOf(parse, cursor)..]
      case Refused => next == cursor && Delivers(parse, cursor, p) == []
      case Emptied => OffsetOf(parse, next) == 0 && Delivers(parse, cursor, p) == []
  {
    StoredOffset(parse, |p.log|);
    hide OffsetOf, Numeral;
  }

  // The bytes of a run against the stretch of log it should deliver.
  ghost predicate Delivered(pieces: seq<seq<Byte>>, log: seq<Byte>, a: nat, b: nat, once: bool) {
    && a <= b <= |log|
    && (if once then U.Flat(pieces) == log[a..b] else |U.Flat(pieces)| > b - a)
  }

  lemma {:induction false} RunDelivers(parse: string -> Option<int>, from: seq<Byte>, cursor: Option<string>, polls: seq<Poll>, reached: nat, lost: bool)
    requires IntReader(parse)
    requires OffsetOf(parse, cursor) == (if lost then 0 else reached) && reached <= |from| && Growing(from, polls)
    ensures Delivered(Pieces(parse, cursor, polls), LastLog(from, polls), reached, Reached(reached, polls),
                      NeverRewound(reached, lost, polls))
    decreases polls
  {
    if polls == [] {
      assert from[reached..reached] == [];
    } else {
      var p, rest, next := polls[0], polls[1..], Advance(parse, cursor, polls[0]);
      PollStep(parse, from, cursor, p, reached, lost);
      LogGrows(p.log, rest);
      assert LastLog(p.log, rest) == LastLog(from, polls);
      hide OffsetOf, Delivers, Advance, Delivered, LastLog, IntReader;
      match p.storage {
        case Written =>
          RunDelivers(parse, p.log, next, rest, |p.log|, false);
          PieceAhead(Delivers(parse, cursor, p), Pieces(parse, next, rest), LastLog(p.log, rest), p.log, OffsetOf(parse, cursor), reached,
                     Reached(|p.log|, rest), NeverRewound(|p.log|, false, rest));
        case Refused =>
          RunDelivers(parse, p.log, next, rest, reached, lost);
          EmptyAhead(Pieces(parse, next, rest));
          hide U.Flat;
          assert Pieces(parse, cursor, polls) == [[]] + Pieces(parse, next, rest);
          SameBytes(Pieces(parse, next, rest), Pieces(parse, cursor, polls), LastLog(p.log, rest), reached, Reached(reached, rest),
                    NeverRewound(reached, lost, rest));
        case Emptied =>
          RunDelivers(parse, p.log, next, rest, reached, true);
          EmptyAhead(Pieces(parse, next, rest));
          hide U.Flat;
          assert Pieces(parse, cursor, polls) == [[]] + Pieces(parse, next, rest);
          SameBytes(Pieces(parse, next, rest), Pieces(parse, cursor, polls), LastLog(p.log, rest), reached, Reached(reached, rest),
                    NeverRewound(reached, true, rest));
      }
    }
  }

  lemma EmptyAhead(pieces: seq<seq<Byte>>)
    ensures U.Flat([[]] + pieces) == U.Flat(pieces)
  {
    assert ([[]] + pieces)[1..] == pieces;
  }

  lemma SameBytes(a: seq<seq<Byte>>, b: seq<seq<Byte>>, log: seq<Byte>, from: nat, to: nat, once: bool)
    requires U.Flat(a) == U.Flat(b) && Delivered(a, log, from, to, once)
    ensures Delivered(b, log, from, to, once)
  {
  }

  lemma PieceAhead(piece: seq<Byte>, pieces: seq<seq<Byte>>, all: seq<Byte>, log: seq<Byte>, offset: nat, reached: nat,
                   end: nat, once: bool)
    requires reached <= |log| && (offset == reached || offset == 0) && log <= all && piece == log[offset..]
    requires Delivered(pieces, all, |log|, end, once)
    ensures Delivered([piece] + pieces, all, reached, end, offset == reached && once)
  {
    assert ([piece] + pieces)[1..] == pieces;
    assert log[offset..] == log[offset..|log|];
    if once {
      Joined(all, log, offset, |log|, end);
    }
  }

  /** Each byte once. While the log only grows, the bytes delivered over any run of polls are exactly those between
      the first cursor and the end of the last written poll, with no gap and no repeat, if and only if no
      written poll follows the loss of a cursor past the beginning; otherwise more bytes are delivered. */
  lemma EachByteOnce(parse: string -> Option<int>, from: seq<Byte>, cursor: Option<string>, polls: seq<Poll>)
    requires IntReader(parse)
    requires 0 <= OffsetOf(parse, cursor) <= |from| && Growing(from, polls)
    ensures var o := OffsetOf(parse, cursor);
      var end, bytes := Reached(o, polls), U.Flat(Pieces(parse, cursor, polls));
      && o <= end <= |LastLog(from, polls)|
      && (bytes == LastLog(from, polls)[o..end] <==> NeverRewound(o, false, polls))
      && (!NeverRewound(o, false, polls) ==> |bytes| > end - o)
  {
    RunDelivers(parse, from, cursor, polls, OffsetOf(parse, cursor), false);
  }

  /** A negative cursor, which only another program can have written, sticks: nothing is ever delivered again. */
  lemma {:induction false} NegativeCursorSticks(parse: string -> Option<int>, cursor: Option<string>, polls: seq<Poll>)
    requires OffsetOf(parse, cursor) < 0
    ensures LastCursor(parse, cursor, polls) == cursor && U.Flat(Pieces(parse, cursor, polls)) == []
    decreases polls
  {
    if polls != [] {
      NegativeCursorSticks(parse, cursor, polls[1..]);
    }
  }

  /** A log that was replaced between polls is read whole exactly when the stored offset is 0 or beyond its
      end; a new log that has already outgrown the offset loses its beginning. */
  lemma ReplacedLog(log: seq<Byte>, offset: nat)
    ensures Unread(log, offset) == log <==> offset == 0 || offset > |log|
  {
    if 0 < offset <= |log| {
      assert |log[offset..]| < |log|;
    }
  }

  // ---- the text of a run ----

  // What the polls return, one after the other.
  function AllText(parse: string -> Option<int>, cursor: Option<string>, polls: seq<Poll>): string
    decreases polls
  {
    if polls == [] then ""
    else U.DecodeUtf8(Delivers(parse, cursor, polls[0])) + AllText(parse, Advance(parse, cursor, polls[0]), polls[1..])
  }

  lemma {:induction false} TextIsPieces(parse: string -> Option<int>, cursor: Option<string>, polls: seq<Poll>)
    ensures AllText(parse, cursor, polls) == U.DecodeEach(Pieces(parse, cursor, polls))
    decreases polls
  {
    if polls != [] {
      hide U.DecodeUtf8, Delivers, Advance;
      TextIsPieces(parse, Advance(parse, cursor, polls[0]), polls[1..]);
      assert Pieces(parse, cursor, polls)[1..] == Pieces(parse, Advance(parse, cursor, polls[0]), polls[1..]);
    }
  }

  // Every written poll ends at the start of a character of `log`, or at its end.
  predicate EndsWell(log: seq<Byte>, polls: seq<Poll>) {
    forall k :: 0 <= k < |polls| && polls[k].storage == Written ==> U.StartsAt(log, |polls[k].log|)
  }

  lemma EndsWellFirst(log: seq<Byte>, polls: seq<Poll>)
    requires polls != []
    ensures EndsWell(log, polls) <==>
      (polls[0].storage == Written ==> U.StartsAt(log, |polls[0].log|)) && EndsWell(log, polls[1..])
  {
    hide U.StartsAt;
    assert forall k :: 1 <= k < |polls| ==> polls[1..][k - 1] == polls[k];
  }

  lemma {:induction false} CleanIff(parse: string -> Option<int>, from: seq<Byte>, cursor: Option<string>, polls: seq<Poll>, reached: nat, lost: bool,
                                    log: seq<Byte>)
    requires IntReader(parse)
    requires OffsetOf(parse, cursor) == (if lost then 0 else reached) && reached <= |from| && Growing(from, polls)
    requires NeverRewound(reached, lost, polls) && U.StartsAt(log, reached)
    requires Reached(reached, polls) <= |LastLog(from, polls)| && LastLog(from, polls)[..Reached(reached, polls)] == log
    ensures U.Clean(Pieces(parse, cursor, polls)) <==> EndsWell(log, polls)
    decreases polls
  {
    if polls != [] {
      var p, rest, next := polls[0], polls[1..], Advance(parse, cursor, polls[0]);
      PollStep(parse, from, cursor, p, reached, lost);
      EndsWellFirst(log, polls);
      LogGrows(p.log, rest);
      var last := LastLog(from, polls);
      assert LastLog(p.log, rest) == last;
      assert Pieces(parse, cursor, polls)[1..] == Pieces(parse, next, rest);
      var now := if p.storage == Written then |p.log| else reached;
      var gone := p.storage == Emptied || (p.storage == Refused && lost);
      var piece, pieces := Delivers(parse, cursor, p), Pieces(parse, next, rest);
      assert Pieces(parse, cursor, polls) == [piece] + pieces;
      RunDelivers(parse, p.log, next, rest, now, gone);
      hide OffsetOf, Delivers, Advance, EndsWell, LastLog, U.Clean, Pieces, Growing;
      FirstPiece(piece, p, last, log, reached, Reached(now, rest));
      CleanFirst([piece] + pieces);
      assert ([piece] + pieces)[1..] == pieces;
      if U.StartsAt(log, now) {
        CleanIff(parse, p.log, next, rest, now, gone, log);
      } else if U.Clean(pieces) {
        RestStarts(pieces, last, log, now, Reached(now, rest));
      }
    }
  }

  lemma RestStarts(pieces: seq<seq<Byte>>, last: seq<Byte>, log: seq<Byte>, now: nat, end: nat)
    requires now <= end <= |last| && last[..end] == log && U.Flat(pieces) == last[now..end] && U.Clean(pieces)
    ensures U.StartsAt(log, now)
  {
    U.CleanStart(pieces);
    hide U.Flat, U.Clean;
    assert last[now..end] == log[now..];
  }

  lemma CleanFirst(pieces: seq<seq<Byte>>)
    requires pieces != []
    ensures U.Clean(pieces) <==> U.StartsAt(pieces[0], 0) && U.Clean(pieces[1..])
  {
  }

  lemma FirstPiece(piece: seq<Byte>, p: Poll, last: seq<Byte>, log: seq<Byte>, reached: nat, end: nat)
    requires end <= |last| && last[..end] == log && p.log <= last && U.StartsAt(log, reached)
    requires if p.storage == Written then reached <= |p.log| <= end && piece == p.log[reached..] else piece == []
    ensures U.StartsAt(piece, 0)
  {
    if p.storage == Written && reached < |p.log| {
      assert piece[0] == log[reached];
    }
  }

  /** Each character once. While the log only grows and each byte is delivered once, and the bytes are the encoding
      of some text, the polls together return that text if and only if every written poll ended between two
      characters (or at the end of the run); otherwise they return more characters. */
  lemma EachCharacterOnce(parse: string -> Option<int>, from: seq<Byte>, cursor: Option<string>, polls: seq<Poll>, before: string, text: string)
    requires IntReader(parse)
    requires 0 <= OffsetOf(parse, cursor) <= |from| && Growing(from, polls) && NeverRewound(OffsetOf(parse, cursor), false, polls)
    requires var o, end := OffsetOf(parse, cursor), Reached(OffsetOf(parse, cursor), polls);
      && o == |U.Utf8(before)| && end <= |LastLog(from, polls)|
      && LastLog(from, polls)[..end] == U.Utf8(before + text)
    ensures AllText(parse, cursor, polls) == text <==>
      forall k :: 0 <= k < |polls| && polls[k].storage == Written ==> U.Boundary(before + text, |polls[k].log|)
    ensures AllText(parse, cursor, polls) != text ==> |AllText(parse, cursor, polls)| > |text|
  {
    var o, end := OffsetOf(parse, cursor), Reached(OffsetOf(parse, cursor), polls);
    var log := U.Utf8(before + text);
    RunDelivers(parse, from, cursor, polls, o, false);
    TextIsPieces(parse, cursor, polls);
    U.Utf8Concat(before, text);
    assert log[o..] == U.Utf8(text);
    assert LastLog(from, polls)[o..end] == log[o..];
    U.PiecesText(Pieces(parse, cursor, polls), text);
    U.BoundaryIff(before + text, o);
    assert (before + text)[..|before|] == before;
    assert U.Boundary(before + text, o);
    CleanIff(parse, from, cursor, polls, o, false, log);
    forall k | 0 <= k < |polls| && polls[k].storage == Written ensures |polls[k].log| <= end {
      WrittenWithin(from, polls, o, k);
    }
    hide *;
    EndsAtBoundaries(before + text, polls);
  }

  lemma {:induction false} WrittenWithin(from: seq<Byte>, polls: seq<Poll>, reached: nat, k: nat)
    requires Growing(from, polls) && k < |polls| && polls[k].storage == Written
    ensures |polls[k].log| <= Reached(reached, polls)
    decreases polls
  {
    var p, rest := polls[0], polls[1..];
    var now := if p.storage == Written then |p.log| else reached;
    if k == 0 {
      ReachesFurther(p.log, rest, now);
    } else {
      WrittenWithin(p.log, rest, now, k - 1);
    }
  }

  lemma {:induction false} ReachesFurther(from: seq<Byte>, polls: seq<Poll>, reached: nat)
    requires Growing(from, polls) && reached <= |from|
    ensures reached <= Reached(reached, polls)
    decreases polls
  {
    if polls != [] {
      var p := polls[0];
      ReachesFurther(p.log, polls[1..], if p.storage == Written then |p.log| else reached);
    }
  }

  lemma EndsAtBoundaries(s: string, polls: seq<Poll>)
    requires forall k :: 0 <= k < |polls| && polls[k].storage == Written ==> |polls[k].log| <= |U.Utf8(s)|
    ensures EndsWell(U.Utf8(s), polls) <==>
      forall k :: 0 <= k < |polls| && polls[k].storage == Written ==> U.Boundary(s, |polls[k].log|)
  {
    forall k | 0 <= k < |polls| && polls[k].storage == Written
      ensures U.StartsAt(U.Utf8(s), |polls[k].log|) <==> U.Boundary(s, |polls[k].log|)
    {
      U.BoundaryIff(s, |polls[k].log|);
    }
    hide U.Utf8, U.Boundary;
  }

  /** For one cut of a log: the two parts decode to the text if and only if the cut is between two characters. */
  lemma CutText(s: string, k: nat)
    requires k <= |U.Utf8(s)|
    ensures var log := U.Utf8(s);
      U.DecodeUtf8(log[..k]) + U.DecodeUtf8(log[k..]) == s <==> exists j :: 0 <= j <= |s| && k == |U.Utf8(s[..j])|
  {
    var log := U.Utf8(s);
    var a, b := log[..k], log[k..];
    TwoPieces(a, b);
    assert a + b == log;
    U.PiecesText([a, b], s);
    U.BoundaryIff(s, k);
    U.BoundaryIff(s, 0);
    assert s[..0] == "" && U.Utf8("") == [];
    assert U.Boundary(s, 0);
    assert U.StartsAt(a, 0) || k == 0;
    assert U.StartsAt(b, 0) <==> U.StartsAt(log, k);
  }

  lemma TwoPieces(a: seq<Byte>, b: seq<Byte>)
    ensures U.Flat([a, b]) == a + b && U.DecodeEach([a, b]) == U.DecodeUtf8(a) + U.DecodeUtf8(b)
    ensures U.Clean([a, b]) <==> U.StartsAt(a, 0) && U.StartsAt(b, 0)
  {
    hide U.DecodeUtf8;
    assert [a, b][1..] == [b] && [b][1..] == [];
    assert U.Flat([b]) == b && U.DecodeEach([b]) == U.DecodeUtf8(b);
    assert U.Clean([b]) <==> U.StartsAt(b, 0);
  }

  /** The shortest case: the two bytes of one character, a poll between them, and two replacement characters. */
  lemma SplitCharacter()
    ensures var e: seq<Byte> := [0xC3, 0xA9];
      && U.DecodeUtf8(e) == [0xE9 as char]
      && U.DecodeUtf8(e[..1]) + U.DecodeUtf8(e[1..]) == [U.REPLACEMENT, U.REPLACEMENT]
  {
    var e: seq<Byte> := [0xC3, 0xA9];
    assert U.Utf8Next(e) == (0xE9 as char, 2) && e[2..] == [];
    assert e[..1] == [0xC3] && e[1..] == [0xA9];
    assert U.Utf8Next([0xC3]) == (U.REPLACEMENT, 1) && [0xC3][1..] == [];
    assert U.Utf8Next([0xA9]) == (U.REPLACEMENT, 1) && [0xA9][1..] == [];
    U.DecodeNothing();
  }
}
