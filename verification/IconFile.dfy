/** The icon file: PNG and bitmap payloads and the directory over them, with a reader. */
module IconFile {
  import opened Wrappers
  import opened Sequences
  import opened ByteLayout
  import opened Bitmap

  const ICONDIR: seq<nat> := [2, 2, 2]
  const ICONDIRENTRY: seq<nat> := [1, 1, 1, 1, 2, 2, 4, 4]
  const ICONDIR_SIZE := 6
  const ICONDIRENTRY_SIZE := 16
  const MAX_DIRECTORY_DIMENSION := 256
  const PNG_SIZES: set<nat> := {256}

  // ----- the directory

  /** One entry of the file: its edge length and its payload. */
  datatype Payload = Payload(size: nat, data: seq<Byte>)

  /** The edge length as the directory's one byte gives it back: 0 stands for 256. */
  function Recovered(size: nat): nat {
    if size == 0 || size >= MAX_DIRECTORY_DIMENSION then 256 else size
  }

  function EntryFields(p: Payload, offset: nat): seq<nat> {
    var dimension := if p.size >= MAX_DIRECTORY_DIMENSION then 0 else p.size;
    [dimension, dimension, 0, 0, 1, 32, |p.data|, offset]
  }

  function Lengths(ps: seq<Payload>): nat {
    if ps == [] then 0 else |ps[0].data| + Lengths(ps[1..])
  }

  function Body(ps: seq<Payload>): (b: seq<Byte>)
    ensures |b| == Lengths(ps)
  {
    if ps == [] then [] else ps[0].data + Body(ps[1..])
  }

  const FIELD_LIMIT := 0x1_0000_0000

  lemma EntryFits(p: Payload, offset: nat)
    requires |p.data| < FIELD_LIMIT && offset < FIELD_LIMIT
    ensures Fits(ICONDIRENTRY, EntryFields(p, offset))
  {
    FieldLimits();
  }

  function EntryBytes(p: Payload, offset: nat): (b: seq<Byte>)
    requires |p.data| < FIELD_LIMIT && offset < FIELD_LIMIT
    ensures |b| == ICONDIRENTRY_SIZE
  {
    EntryFits(p, offset);
    PackRoundTrip(ICONDIRENTRY, EntryFields(p, offset), []);
    Pack(ICONDIRENTRY, EntryFields(p, offset))
  }

  /** Lengths and offsets fit the directory's fields when the first payload stands at `offset`. */
  predicate Addressable(ps: seq<Payload>, offset: nat) {
    ps == [] || (|ps[0].data| < FIELD_LIMIT && offset < FIELD_LIMIT && Addressable(ps[1..], offset + |ps[0].data|))
  }

  /** The directory entries of `ps` when the first payload stands at `offset`. */
  function Entries(ps: seq<Payload>, offset: nat): (b: seq<Byte>)
    requires Addressable(ps, offset)
    ensures |b| == ICONDIRENTRY_SIZE * |ps|
  {
    if ps == [] then [] else EntryBytes(ps[0], offset) + Entries(ps[1..], offset + |ps[0].data|)
  }

  /** Follows `count` entries to their payloads; a payload must lie within the file. */
  function ReadEntries(file: seq<Byte>, dir: seq<Byte>, count: nat): Option<seq<Payload>>
    decreases count
  {
    if count == 0 then Some([])
    else match Unpack(ICONDIRENTRY, dir)
      case None => None
      case Some((f, rest)) =>
        if !IsEntry(f, |file|) then None
        else match ReadEntries(file, rest, count - 1)
          case None => None
          case Some(others) => Some([EntryPayload(f, file)] + others)
  }

  predicate IsEntry(f: seq<nat>, size: nat) {
    |f| == 8 && f[0] == f[1] && f[2] == f[3] == 0 && f[4] == 1 && f[5] == 32 && f[6] + f[7] <= size
  }

  function EntryPayload(f: seq<nat>, file: seq<Byte>): Payload
    requires IsEntry(f, |file|)
  {
    Payload(if f[0] == 0 then 256 else f[0], file[f[7]..f[7] + f[6]])
  }

  function ReadIco(file: seq<Byte>): Option<seq<Payload>> {
    match Unpack(ICONDIR, file)
    case None => None
    case Some((f, rest)) =>
      if |f| != 3 || f[0] != 0 || f[1] != 1 then None else ReadEntries(file, rest, f[2])
  }

  /** The payloads as a reader of the directory sees them. */
  function AsRead(ps: seq<Payload>): seq<Payload> {
    seq(|ps|, i requires 0 <= i < |ps| => Payload(Recovered(ps[i].size), ps[i].data))
  }

  lemma OneEntryRoundTrip(p: Payload, offset: nat, rest: seq<Byte>)
    requires |p.data| < FIELD_LIMIT && offset < FIELD_LIMIT
    ensures Unpack(ICONDIRENTRY, EntryBytes(p, offset) + rest) == Some((EntryFields(p, offset), rest))
  {
    EntryFits(p, offset);
    PackRoundTrip(ICONDIRENTRY, EntryFields(p, offset), rest);
  }

  lemma EntryLeadsToPayload(file: seq<Byte>, p: Payload, offset: nat)
    requires offset + |p.data| <= |file| && file[offset..offset + |p.data|] == p.data
    ensures IsEntry(EntryFields(p, offset), |file|)
    ensures EntryPayload(EntryFields(p, offset), file) == Payload(Recovered(p.size), p.data)
  {
  }

  /** Entries whose payloads stand back to back from `offset` on lead to exactly those payloads. */
  lemma {:induction false} EntriesRoundTrip(file: seq<Byte>, ps: seq<Payload>, offset: nat, rest: seq<Byte>)
    requires Addressable(ps, offset)
    requires offset + Lengths(ps) == |file| && file[offset..] == Body(ps)
    ensures ReadEntries(file, Entries(ps, offset) + rest, |ps|) == Some(AsRead(ps))
    decreases |ps|
  {
    if ps == [] {
      assert AsRead(ps) == [];
    } else {
      var p, others := ps[0], ps[1..];
      var next := offset + |p.data|;
      OneEntryRoundTrip(p, offset, Entries(others, next) + rest);
      Associative(EntryBytes(p, offset), Entries(others, next), rest);
      FirstPayload(file, p.data, Body(others), offset);
      EntriesRoundTrip(file, others, next, rest);
      EntryLeadsToPayload(file, p, offset);
      assert AsRead(ps) == [Payload(Recovered(p.size), p.data)] + AsRead(others);
    }
  }

  lemma FirstPayload(file: seq<Byte>, first: seq<Byte>, others: seq<Byte>, offset: nat)
    requires offset <= |file| && file[offset..] == first + others
    ensures offset + |first| <= |file|
    ensures file[offset..offset + |first|] == first && file[offset + |first|..] == others
  {
    assert file[offset..offset + |first|] == file[offset..][..|first|];
    assert file[offset + |first|..] == file[offset..][|first|..];
  }

  lemma {:induction false} LengthsOfMore(ps: seq<Payload>, p: Payload)
    ensures Lengths(ps + [p]) == Lengths(ps) + |p.data|
    ensures Body(ps + [p]) == Body(ps) + p.data
  {
    if ps == [] {
      assert [p][1..] == [];
    } else {
      assert (ps + [p])[1..] == ps[1..] + [p];
      LengthsOfMore(ps[1..], p);
    }
  }

  lemma {:induction false} LengthsOfPrefix(ps: seq<Payload>, k: nat)
    requires k <= |ps|
    ensures Lengths(ps[..k]) <= Lengths(ps)
    decreases |ps|
  {
    if k > 0 {
      assert ps[..k][1..] == ps[1..][..k - 1];
      LengthsOfPrefix(ps[1..], k - 1);
    }
  }

  lemma EntriesOfOne(p: Payload, offset: nat)
    requires Addressable([p], offset)
    ensures |p.data| < FIELD_LIMIT && offset < FIELD_LIMIT
    ensures Entries([p], offset) == EntryBytes(p, offset)
  {
    assert [p][1..] == [];
  }

  /** One more payload, which begins at `end`, adds its entry. */
  lemma {:induction false} EntriesOfMore(ps: seq<Payload>, p: Payload, offset: nat, end: nat)
    requires Addressable(ps + [p], offset) && end == offset + Lengths(ps)
    ensures Addressable(ps, offset) && |p.data| < FIELD_LIMIT && end < FIELD_LIMIT
    ensures Entries(ps + [p], offset) == Entries(ps, offset) + EntryBytes(p, end)
    decreases |ps|
  {
    if ps == [] {
      EntriesOfOne(p, offset);
      assert ps + [p] == [p];
    } else {
      var next := offset + |ps[0].data|;
      assert (ps + [p])[0] == ps[0] && (ps + [p])[1..] == ps[1..] + [p];
      EntriesOfMore(ps[1..], p, next, end);
      Associative(EntryBytes(ps[0], offset), Entries(ps[1..], next), EntryBytes(p, end));
    }
  }

  lemma {:induction false} AddressablePrefix(ps: seq<Payload>, offset: nat, k: nat)
    requires Addressable(ps, offset) && k <= |ps|
    ensures Addressable(ps[..k], offset)
    decreases |ps|
  {
    if k > 0 {
      assert ps[..k][1..] == ps[1..][..k - 1];
      AddressablePrefix(ps[1..], offset + |ps[0].data|, k - 1);
    }
  }

  /**
   Payloads are contiguous and disjoint and fill the file: the `k`-th begins where those before it
   end, and its entry says so.
   */
  lemma PayloadsAreContiguous(ps: seq<Payload>, offset: nat, k: nat)
    requires Addressable(ps, offset) && k < |ps|
    ensures Addressable(ps[..k], offset) && Addressable(ps[..k + 1], offset)
    ensures var at := offset + Lengths(ps[..k]);
            && at + |ps[k].data| == offset + Lengths(ps[..k + 1]) <= offset + Lengths(ps)
            && |ps[k].data| < FIELD_LIMIT && at < FIELD_LIMIT
            && Entries(ps[..k + 1], offset) == Entries(ps[..k], offset) + EntryBytes(ps[k], at)
  {
    assert ps[..k + 1] == ps[..k] + [ps[k]];
    LengthsOfMore(ps[..k], ps[k]);
    LengthsOfPrefix(ps, k + 1);
    AddressablePrefix(ps, offset, k + 1);
    EntriesOfMore(ps[..k], ps[k], offset, offset + Lengths(ps[..k]));
  }

  // ----- the file

  /** A rendered icon of one edge length: the bitmap, and its PNG encoding. */
  datatype Rendering = Rendering(size: nat, image: Image, png: seq<Byte>)

  /** The entry of 256 pixels holds the PNG, all others a bitmap a reader decodes to the image. */
  predicate Carries(p: Payload, r: Rendering) {
    && p.size == r.size
    && if r.size == 256 then p.data == r.png
       else ReadDib(p.data) == Some(r.image) && r.image.Valid() && IsBitmapOf(p.data, r.image)
  }

  method EncodePayloads(renderings: seq<Rendering>) returns (payloads: seq<Payload>)
    requires forall r | r in renderings :: Representable(r.image)
    ensures CarriesAll(payloads, renderings)
  {
    payloads := [];
    for i := 0 to |renderings|
      invariant |payloads| == i && forall k | 0 <= k < i :: Carries(payloads[k], renderings[k])
    {
      var r := renderings[i];
      var data;
      if r.size in PNG_SIZES {
        data := r.png;
      } else {
        data := DibBytes(r.image);
      }
      payloads := payloads + [Payload(r.size, data)];
    }
  }

  function DirectoryEnd(count: nat): nat {
    ICONDIR_SIZE + ICONDIRENTRY_SIZE * count
  }

  /** The directory's fields can hold the entries; packing them is an error otherwise. */
  predicate Storable(ps: seq<Payload>) {
    |ps| < 0x1_0000 && Addressable(ps, DirectoryEnd(|ps|))
  }

  /** The loop over the payloads: entries with running offsets, and the payloads back to back. */
  method DirectoryAndBody(payloads: seq<Payload>, start: nat) returns (directory: seq<Byte>, body: seq<Byte>)
    requires Addressable(payloads, start)
    ensures directory == Entries(payloads, start) && body == Body(payloads)
  {
    var offset := start;
    directory, body := [], [];
    for i := 0 to |payloads|
      invariant offset == start + Lengths(payloads[..i])
      invariant Addressable(payloads[..i], start) && directory == Entries(payloads[..i], start)
      invariant body == Body(payloads[..i])
    {
      var p := payloads[i];
      PayloadsAreContiguous(payloads, start, i);
      assert payloads[..i + 1] == payloads[..i] + [p];
      LengthsOfMore(payloads[..i], p);
      directory := directory + EntryBytes(p, offset);
      body := body + p.data;
      offset := offset + |p.data|;
    }
    assert payloads[..|payloads|] == payloads;
  }

  // ----- the bytes at their offsets

  /** The directory's head: type 1, for icons, and the count of entries. */
  predicate HeadStands(file: seq<Byte>, count: nat) {
    |file| >= 6 && Word(file, 0) == 0 && Word(file, 2) == 1 && Word(file, 4) == count
  }

  /** The 16 bytes of an entry, of which both dimensions of 256 or more are written as 0. */
  predicate EntryStands(b: seq<Byte>, e: nat, p: Payload, offset: nat) {
    && e + 16 <= |b|
    && b[e] == b[e + 1] == (if p.size >= 256 then 0 else p.size) && b[e + 2] == b[e + 3] == 0
    && Word(b, e + 4) == 1 && Word(b, e + 6) == 32 && Dword(b, e + 8) == |p.data| && Dword(b, e + 12) == offset
  }

  /** Entry `i` at 6 + 16 * i says where its payload is; payloads lie back to back up to the end. */
  predicate DirectoryStands(file: seq<Byte>, ps: seq<Payload>) {
    HeadStands(file, |ps|) && forall i | 0 <= i < |ps| :: EntryLeads(file, ps, i)
  }

  predicate EntryLeads(file: seq<Byte>, ps: seq<Payload>, i: nat)
    requires i < |ps|
  {
    var offset := 6 + 16 * |ps| + Lengths(ps[..i]);
    && EntryStands(file, 6 + 16 * i, ps[i], offset)
    && offset + |ps[i].data| <= |file| && file[offset..offset + |ps[i].data|] == ps[i].data
  }

  lemma EntryOffsets(widths: seq<nat>)
    requires widths == ICONDIRENTRY
    ensures Total(widths[..0]) == 0 && Total(widths[..1]) == 1 && Total(widths[..2]) == 2 && Total(widths[..3]) == 3
    ensures Total(widths[..4]) == 4 && Total(widths[..5]) == 6 && Total(widths[..6]) == 8 && Total(widths[..7]) == 12
  {
    NextOffset(widths, 0); NextOffset(widths, 1); NextOffset(widths, 2); NextOffset(widths, 3);
    NextOffset(widths, 4); NextOffset(widths, 5); NextOffset(widths, 6);
  }

  lemma PackedEntryStands(widths: seq<nat>, fields: seq<nat>, p: Payload, offset: nat, rest: seq<Byte>)
    requires widths == ICONDIRENTRY && fields == EntryFields(p, offset) && Fits(widths, fields)
    ensures EntryStands(Pack(widths, fields) + rest, 0, p, offset)
  {
    EntryOffsets(widths);
    PackRoundTrip(widths, fields, rest);
    FieldIsRead(widths, fields, 0, rest, 0); FieldIsRead(widths, fields, 1, rest, 1);
    FieldIsRead(widths, fields, 2, rest, 2); FieldIsRead(widths, fields, 3, rest, 3);
    FieldIsRead(widths, fields, 4, rest, 4); FieldIsRead(widths, fields, 5, rest, 6);
    FieldIsRead(widths, fields, 6, rest, 8); FieldIsRead(widths, fields, 7, rest, 12);
  }

  lemma PackedHeadStands(widths: seq<nat>, count: nat, rest: seq<Byte>)
    requires widths == ICONDIR && count < 0x1_0000 && Fits(widths, [0, 1, count])
    ensures HeadStands(Pack(widths, [0, 1, count]) + rest, count)
  {
    NextOffset(widths, 0); NextOffset(widths, 1);
    FieldIsRead(widths, [0, 1, count], 0, rest, 0);
    FieldIsRead(widths, [0, 1, count], 1, rest, 2);
    FieldIsRead(widths, [0, 1, count], 2, rest, 4);
  }

  /** An entry stands as well behind other bytes. */
  lemma EntryStandsBehind(a: seq<Byte>, b: seq<Byte>, e: nat, p: Payload, offset: nat)
    requires EntryStands(b, e, p, offset)
    ensures EntryStands(a + b, |a| + e, p, offset)
  {
    var all, at := a + b, |a| + e;
    assert all[at] == b[e] && all[at + 1] == b[e + 1] && all[at + 2] == b[e + 2] && all[at + 3] == b[e + 3];
    assert Word(all, at + 4) == Word(b, e + 4) && Word(all, at + 6) == Word(b, e + 6);
    assert Word(all, at + 8) == Word(b, e + 8) && Word(all, at + 10) == Word(b, e + 10);
    assert Word(all, at + 12) == Word(b, e + 12) && Word(all, at + 14) == Word(b, e + 14);
  }

  /** Entry `i` of a run of entries stands at 16 * i. */
  lemma {:induction false} EntriesStand(ps: seq<Payload>, start: nat, i: nat, rest: seq<Byte>)
    requires Addressable(ps, start) && i < |ps|
    ensures EntryStands(Entries(ps, start) + rest, 16 * i, ps[i], start + Lengths(ps[..i]))
    decreases i
  {
    var first, others := EntryBytes(ps[0], start), Entries(ps[1..], start + |ps[0].data|);
    Associative(first, others, rest);
    if i == 0 {
      EntryFits(ps[0], start);
      PackedEntryStands(ICONDIRENTRY, EntryFields(ps[0], start), ps[0], start, others + rest);
    } else {
      EntriesStand(ps[1..], start + |ps[0].data|, i - 1, rest);
      assert ps[..i][1..] == ps[1..][..i - 1] && ps[..i][0] == ps[0];
      EntryStandsBehind(first, others + rest, 16 * (i - 1), ps[i], start + Lengths(ps[..i]));
    }
  }

  /** Payload `i` stands behind those before it. */
  lemma {:induction false} PayloadStands(ps: seq<Payload>, i: nat)
    requires i < |ps|
    ensures var at := Lengths(ps[..i]);
            at + |ps[i].data| <= |Body(ps)| && Body(ps)[at..at + |ps[i].data|] == ps[i].data
    decreases i
  {
    if i > 0 {
      PayloadStands(ps[1..], i - 1);
      assert ps[..i][1..] == ps[1..][..i - 1] && ps[..i][0] == ps[0];
      var at := Lengths(ps[1..][..i - 1]);
      SliceOfSecond(ps[0].data, Body(ps[1..]), at, at + |ps[i].data|);
    }
  }

  lemma FileStands(ps: seq<Payload>, head: seq<Byte>)
    requires Storable(ps) && |head| == 6 && HeadStands(head + (Entries(ps, DirectoryEnd(|ps|)) + Body(ps)), |ps|)
    ensures DirectoryStands(head + (Entries(ps, DirectoryEnd(|ps|)) + Body(ps)), ps)
  {
    var entries := Entries(ps, DirectoryEnd(|ps|));
    forall i | 0 <= i < |ps|
      ensures EntryLeads(head + (entries + Body(ps)), ps, i)
    {
      EntriesStand(ps, DirectoryEnd(|ps|), i, Body(ps));
      PayloadStands(ps, i);
      EntryLeadsBehind(ps, head, entries, Body(ps), i);
    }
  }

  lemma EntryLeadsBehind(ps: seq<Payload>, head: seq<Byte>, entries: seq<Byte>, body: seq<Byte>, i: nat)
    requires i < |ps| && |head| == 6 && |entries| == 16 * |ps|
    requires EntryStands(entries + body, 16 * i, ps[i], 6 + 16 * |ps| + Lengths(ps[..i]))
    requires var at := Lengths(ps[..i]); at + |ps[i].data| <= |body| && body[at..at + |ps[i].data|] == ps[i].data
    ensures EntryLeads(head + (entries + body), ps, i)
  {
    var at := Lengths(ps[..i]);
    EntryStandsBehind(head, entries + body, 16 * i, ps[i], 6 + 16 * |ps| + at);
    SliceOfSecond(entries, body, at, at + |ps[i].data|);
    SliceOfSecond(head, entries + body, |entries| + at, |entries| + at + |ps[i].data|);
  }

  /** The file over given payloads: a reader of the directory recovers every one, and every byte is what it must be. */
  method AssembleIco(payloads: seq<Payload>) returns (file: seq<Byte>)
    requires Storable(payloads)
    ensures DirectoryStands(file, payloads)
    ensures ReadIco(file) == Some(AsRead(payloads))
    ensures |file| == DirectoryEnd(|payloads|) + Lengths(payloads)
  {
    var offset := ICONDIR_SIZE + ICONDIRENTRY_SIZE * |payloads|;
    HeadFits(|payloads|);
    var head := Pack(ICONDIR, [0, 1, |payloads|]);
    var directory, body := DirectoryAndBody(payloads, offset);
    Associative(head, directory, body);
    IcoRoundTrip(payloads);
    PackedHeadStands(ICONDIR, |payloads|, directory + body);
    FileStands(payloads, head);
    file := head + directory + body;
  }

  lemma HeadFits(count: nat)
    requires count < 0x1_0000
    ensures Fits(ICONDIR, [0, 1, count]) && |Pack(ICONDIR, [0, 1, count])| == ICONDIR_SIZE
  {
    FieldLimits();
    PackRoundTrip(ICONDIR, [0, 1, count], []);
  }

  lemma IcoRoundTrip(ps: seq<Payload>)
    requires Storable(ps)
    ensures Fits(ICONDIR, [0, 1, |ps|])
    ensures var file := Pack(ICONDIR, [0, 1, |ps|]) + (Entries(ps, DirectoryEnd(|ps|)) + Body(ps));
            ReadIco(file) == Some(AsRead(ps)) && |file| == DirectoryEnd(|ps|) + Lengths(ps)
  {
    var start := DirectoryEnd(|ps|);
    HeadFits(|ps|);
    var head, entries := Pack(ICONDIR, [0, 1, |ps|]), Entries(ps, start);
    var file := head + (entries + Body(ps));
    PackRoundTrip(ICONDIR, [0, 1, |ps|], entries + Body(ps));
    Associative(head, entries, Body(ps));
    assert file == (head + entries) + Body(ps) && |head + entries| == start;
    assert file[start..] == Body(ps);
    EntriesRoundTrip(file, ps, start, Body(ps));
  }

  /**
   The whole icon: the directory leads to one payload per rendering, in order, each of which is the
   PNG or decodes to every pixel of the image, and edge lengths of 1 to 256 are recovered. Only
   payloads the directory cannot address are refused.
   */
  method BuildIco(renderings: seq<Rendering>) returns (file: Option<seq<Byte>>)
    requires forall r | r in renderings :: Representable(r.image)
    ensures file.Some? ==> exists payloads :: IsIcon(renderings, payloads, file.value)
    ensures file.None? ==> exists payloads :: CarriesAll(payloads, renderings) && !Storable(payloads)
  {
    var payloads := EncodePayloads(renderings);
    if !Storable(payloads) { return None; }
    var bytes := AssembleIco(payloads);
    assert IsIcon(renderings, payloads, bytes);
    return Some(bytes);
  }

  predicate CarriesAll(payloads: seq<Payload>, renderings: seq<Rendering>) {
    |payloads| == |renderings| && forall i | 0 <= i < |payloads| :: Carries(payloads[i], renderings[i])
  }

  /** The directory leads to payloads that carry the renderings, and to their edge lengths. */
  ghost predicate IsIcon(renderings: seq<Rendering>, payloads: seq<Payload>, file: seq<Byte>) {
    && CarriesAll(payloads, renderings) && DirectoryStands(file, payloads)
    && ReadIco(file) == Some(AsRead(payloads)) && |file| == DirectoryEnd(|payloads|) + Lengths(payloads)
    && forall i | 0 <= i < |payloads| && 1 <= renderings[i].size <= 256 :: AsRead(payloads)[i].size == renderings[i].size
  }
}
