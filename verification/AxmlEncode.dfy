/** A plain encoder: the pool lists the tree's strings in order of appearance, the chunks are the
    tree's events. It shows that the round trip's layouts exist for every tree that fits. */
module AxmlEncode {
  import opened Common
  import opened Bytes
  import opened AxmlDocument
  import D = AxmlDecoder
  import R = AxmlRoundTrip

  function AttrList(a: Attr): seq<string> {
    [a.name]
    + (match a.ns case None => [] case Some(uri) => [uri])
    + (match a.value case Plain(s, _) => [s] case Raw(s, _, _) => [s] case Indexed(s, _) => [s] case _ => [])
  }

  function AttrsList(attrs: seq<Attr>): seq<string> {
    if attrs == [] then [] else AttrList(attrs[0]) + AttrsList(attrs[1..])
  }

  function EventList(e: Event): seq<string> {
    match e
    case OpenScope(p, u) => [p, u]
    case CloseScope(p, u) => [p, u]
    case Open(tag, attrs) => [tag] + AttrsList(attrs)
    case Close(tag) => [tag]
  }

  function PoolOf(es: seq<Event>): seq<string> {
    if es == [] then [] else EventList(es[0]) + PoolOf(es[1..])
  }

  // The layout of a plain tool: no gaps, and each record as long as its fields.
  const PLAIN: Shape := Shape(0x10, [0, 0, 0, 0, 0, 0, 0, 0], [0, 0, 0, 0, 0, 0], [], false, [])

  // The strings one after the other.
  function Encoded(pool: seq<string>, utf8: bool): (blobs: seq<seq<Byte>>)
    requires forall s :: s in pool ==> StringFits(s)
    ensures |blobs| == |pool|
    ensures forall i :: 0 <= i < |pool| ==> blobs[i] == StringBytes(pool[i], utf8)
  {
    if pool == [] then [] else [StringBytes(pool[0], utf8)] + Encoded(pool[1..], utf8)
  }

  function Concat(blobs: seq<seq<Byte>>): seq<Byte> {
    if blobs == [] then [] else blobs[0] + Concat(blobs[1..])
  }

  // Where each blob starts.
  function Starts(blobs: seq<seq<Byte>>, at: nat): (r: seq<nat>)
    ensures |r| == |blobs|
  {
    if blobs == [] then [] else [at] + Starts(blobs[1..], at + |blobs[0]|)
  }

  lemma {:induction false} BlobAt(data: seq<Byte>, base: nat, blobs: seq<seq<Byte>>, at: nat, i: nat)
    requires Holds(data, base + at, Concat(blobs)) && i < |blobs|
    ensures Holds(data, base + Starts(blobs, at)[i], blobs[i])
    ensures Starts(blobs, at)[i] + |blobs[i]| <= at + |Concat(blobs)|
    decreases blobs
  {
    hide Holds;
    HoldsSplit(data, base + at, blobs[0], Concat(blobs[1..]));
    if i > 0 {
      BlobAt(data, base, blobs[1..], at + |blobs[0]|, i - 1);
    }
  }

  function PlainPool(pool: seq<string>, utf8: bool): PoolShape
    requires forall s :: s in pool ==> StringFits(s)
  {
    var blobs := Encoded(pool, utf8);
    PoolShape(utf8, 0, 0, 0, [0, 0, 0, 0], Starts(blobs, 0), [], Concat(blobs))
  }

  predicate StringsFit(pool: seq<string>, utf8: bool) {
    && |pool| <= 1_000_000 && (forall s :: s in pool ==> StringFits(s))
    && 28 + 4 * |pool| + |Concat(Encoded(pool, utf8))| < 0x1_0000_0000
  }

  lemma PlainPoolFits(pool: seq<string>, utf8: bool)
    requires StringsFit(pool, utf8)
    ensures PoolFits(pool, PlainPool(pool, utf8))
  {
    hide StringFits, StringBytes, Encoded, Concat, Starts, Holds;
    var blobs := Encoded(pool, utf8);
    WholeHeld(Concat(blobs));
    forall k | 0 <= k < |pool|
      ensures Starts(blobs, 0)[k] < 0x1_0000_0000 && StoredAt(pool[k], Starts(blobs, 0)[k], PlainPool(pool, utf8))
    {
      BlobAt(Concat(blobs), 0, blobs, 0, k);
    }
  }

  lemma WholeHeld(text: seq<Byte>)
    ensures Holds(text, 0, text)
  {
  }

  function Items(es: seq<Event>): seq<Item> {
    seq(|es|, i requires 0 <= i < |es| => Item.Node(es[i], PLAIN))
  }

  lemma {:induction false} AttrsListed(attrs: seq<Attr>, a: Attr, s: string)
    requires a in attrs && s in AttrStrings(a)
    ensures s in AttrsList(attrs)
    decreases attrs
  {
    if a == attrs[0] {
      assert s in AttrList(a);
    } else {
      AttrsListed(attrs[1..], a, s);
    }
  }

  lemma EventListed(e: Event)
    ensures forall s :: s in Strings(e) ==> s in EventList(e)
  {
    if e.Open? {
      forall a, s | a in e.attrs && s in AttrStrings(a) ensures s in AttrsList(e.attrs) {
        AttrsListed(e.attrs, a, s);
      }
    }
  }

  lemma {:induction false} PoolHolds(es: seq<Event>, e: Event)
    requires e in es
    ensures InPool(e, PoolOf(es))
    decreases es
  {
    EventListed(e);
    if e != es[0] {
      PoolHolds(es[1..], e);
    }
  }

  lemma {:induction false} AllVisible(attrs: seq<Attr>)
    requires forall a :: a in attrs ==> a.name != ""
    ensures Visible(attrs) == attrs
    decreases attrs
  {
    if attrs != [] {
      AllVisible(attrs[1..]);
    }
  }

  lemma {:induction false} ItemsCarryEvents(es: seq<Event>)
    requires forall k :: 0 <= k < |es| ==> R.Named(es[k])
    ensures Events(Items(es)) == es
    decreases es
  {
    if es != [] {
      assert R.Named(es[0]);
      if es[0].Open? { AllVisible(es[0].attrs); }
      ItemsCarryEvents(es[1..]);
      assert Items(es)[1..] == Items(es[1..]);
      assert EventOf(Items(es)[0]) == Some(es[0]);
    }
  }

  lemma {:induction false} AttributeCounts(nodes: seq<Node>, scope: set<string>, e: Event)
    requires WellFormed(nodes, scope) && e in Flatten(nodes)
    ensures e.Open? ==> |e.attrs| < 0x1_0000
    decreases nodes
  {
    var rest := Flatten(nodes[1..]);
    match nodes[0] {
      case Element(_, _, kids) =>
        if e in Flatten(kids) { AttributeCounts(kids, scope, e); }
        else if e in rest { AttributeCounts(nodes[1..], scope, e); }
      case Namespace(_, uri, body) =>
        if e in Flatten(body) { AttributeCounts(body, scope + {uri}, e); }
        else if e in rest { AttributeCounts(nodes[1..], scope, e); }
    }
  }

  lemma {:induction false} RecordsLength(attrs: seq<Attr>, pool: seq<string>)
    requires Listed(attrs, pool)
    requires |pool| <= 1_000_000
    ensures |AllAttrBytes(attrs, pool, [])| == 20 * |attrs|
    decreases attrs
  {
    hide AttrStrings, AttrBytes;
    if attrs != [] {
      RecordsLength(attrs[1..], pool);
    }
  }

  lemma ChunkFits(e: Event, pool: seq<string>)
    requires InPool(e, pool) && |pool| <= 1_000_000 && Shaped(e, PLAIN)
    ensures 16 + |Extension(e, pool, PLAIN)| < 0x1_0000_0000
  {
    if e.Open? {
      OpenStringsInPool(e.tag, e.attrs, pool);
      hide AllAttrBytes, AttrStrings;
      RecordsLength(e.attrs, pool);
    }
  }

  // The tree's strings fit a pool, and its numbers of types without a meaning are not taken for strings.
  ghost predicate Fits(doc: seq<Node>, utf8: bool) {
    var es := Flatten(doc);
    && StringsFit(PoolOf(es), utf8)
    && (forall k :: 0 <= k < |es| && es[k].Open? ==> (forall a :: a in es[k].attrs ==> Unambiguous(a, PoolOf(es))))
  }

  lemma ItemsEncodable(doc: seq<Node>, utf8: bool)
    requires WellFormed(doc, {}) && Fits(doc, utf8)
    ensures forall i :: i in Items(Flatten(doc)) ==> Encodable(i, PoolOf(Flatten(doc)))
  {
    var es := Flatten(doc);
    hide PoolOf, Flatten, WellFormed, Unambiguous, InPool, Extension;
    forall k | 0 <= k < |es| ensures Encodable(Items(es)[k], PoolOf(es)) {
      AttributeCounts(doc, {}, es[k]);
      PoolHolds(es, es[k]);
      ChunkFits(es[k], PoolOf(es));
    }
  }

  lemma EncodedEvents(doc: seq<Node>)
    requires WellFormed(doc, {})
    ensures Events(Items(Flatten(doc))) == Flatten(doc)
  {
    var es := Flatten(doc);
    hide Flatten, WellFormed, R.Named;
    forall k | 0 <= k < |es| ensures R.Named(es[k]) {
      R.ForestNamed(doc, {}, es[k]);
    }
    ItemsCarryEvents(es);
  }

  ghost function Encode(doc: seq<Node>, utf8: bool): Layout
    requires WellFormed(doc, {}) && Fits(doc, utf8)
  {
    ItemsEncodable(doc, utf8);
    PlainPoolFits(PoolOf(Flatten(doc)), utf8);
    var l := Layout([], PoolOf(Flatten(doc)), PlainPool(PoolOf(Flatten(doc)), utf8), Items(Flatten(doc)), 8, []);
    l.(size := 8 + |Chunks(l)|)
  }

  /** Encoding any well-formed forest that fits the format's size fields and decoding it again
      gives the printed forest, whichever pool encoding is used. */
  lemma EncodeThenDecode(doc: seq<Node>, utf8: bool)
    requires WellFormed(doc, {}) && Fits(doc, utf8)
    ensures var l := Encode(doc, utf8);
      l.size < 0x1_0000_0000 ==> Valid(l) && D.Decode(File(l)) == D.Ok(Printed(doc))
  {
    var l := Encode(doc, utf8);
    if l.size < 0x1_0000_0000 {
      EncodedValid(doc, utf8);
      EncodedEvents(doc);
      hide *;
      R.DecoderInvertsEncoder(doc, l);
    }
  }

  lemma EncodedValid(doc: seq<Node>, utf8: bool)
    requires WellFormed(doc, {}) && Fits(doc, utf8)
    ensures var l := Encode(doc, utf8);
      && l.after == Items(Flatten(doc)) && (l.size < 0x1_0000_0000 ==> Valid(l))
  {
    ItemsEncodable(doc, utf8);
    PlainPoolFits(PoolOf(Flatten(doc)), utf8);
    hide PoolOf, Flatten, WellFormed, PoolBytes, PoolFits, PlainPool, Encodable, Items, Body, Unambiguous, EndsWalk;
  }
}
