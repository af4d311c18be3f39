/** Reading a file through its extents (`read` in `fs/lemonfs/mod.rs`). */
module FsRead {
  import opened Basics
  import opened Bits
  import opened Directory
  import opened FileChain
  import opened FsCodec
  import opened FsWrite
  import opened Links
  import opened SectorView
  import opened Volume

  /** The sectors exist. */
  predicate Exist(lbas: seq<nat>, n: nat)
  {
    forall k {:trigger lbas[k]} :: 0 <= k < |lbas| ==> lbas[k] < n
  }

  /** The bytes of some sectors, one after the other. */
  function Joined(d: seq<Sector>, lbas: seq<nat>): (r: seq<Byte>)
    requires Sized(d) && Exist(lbas, |d|)
    ensures |r| == 512 * |lbas|
  {
    if lbas == [] then [] else d[lbas[0]].bytes + Joined(d, lbas[1..])
  }

  lemma {:induction false} JoinedConcat(d: seq<Sector>, a: seq<nat>, b: seq<nat>)
    requires Sized(d) && Exist(a, |d|) && Exist(b, |d|)
    ensures Exist(a + b, |d|) && Joined(d, a + b) == Joined(d, a) + Joined(d, b)
    decreases |a|
  {
    if a == [] {
      assert a + b == b;
    } else {
      assert (a + b)[1..] == a[1..] + b;
      JoinedConcat(d, a[1..], b);
    }
  }

  /** The extents name existing sectors. */
  predicate Readable(links: seq<LinkPointer>, n: nat)
  {
    forall i {:trigger links[i]} :: 0 <= i < |links| ==> Direct(links[i]) && links[i].start + DivCeil(links[i].size, 512) <= n
  }

  /** The bytes of one extent. */
  function ExtentData(d: seq<Sector>, p: LinkPointer): (r: seq<Byte>)
    requires Sized(d) && p.start + DivCeil(p.size, 512) <= |d|
    ensures |r| == p.size
  {
    Joined(d, Expand(p))[..p.size]
  }

  function ReadAll(d: seq<Sector>, links: seq<LinkPointer>): (r: seq<Byte>)
    requires Sized(d) && Readable(links, |d|)
    ensures |r| == TotalSize(links)
  {
    if links == [] then [] else ExtentData(d, links[0]) + ReadAll(d, links[1..])
  }

  lemma {:induction false} ReadAllSnoc(d: seq<Sector>, a: seq<LinkPointer>, p: LinkPointer)
    requires Sized(d) && Readable(a + [p], |d|)
    ensures Readable(a, |d|) && p.start + DivCeil(p.size, 512) <= |d| && ReadAll(d, a + [p]) == ReadAll(d, a) + ExtentData(d, p)
    decreases |a|
  {
    assert (a + [p])[|a|] == p;
    if a == [] {
      assert a + [p] == [p] && [p][1..] == [];
      assert ReadAll(d, [p]) == ExtentData(d, p) + [];
    } else {
      assert (a + [p])[0] == a[0] && (a + [p])[1..] == a[1..] + [p];
      forall i {:trigger a[i]} | 0 <= i < |a|
        ensures Direct(a[i]) && a[i].start + DivCeil(a[i].size, 512) <= |d|
      {
        assert (a + [p])[i] == a[i];
      }
      ReadAllSnoc(d, a[1..], p);
    }
  }

  function Cap(s: seq<Byte>, n: nat): seq<Byte>
  {
    if |s| <= n then s else s[..n]
  }

  lemma CapConcat(a: seq<Byte>, b: seq<Byte>, n: nat)
    ensures Cap(a + b, n) == if |a| >= n then Cap(a, n) else a + Cap(b, n - |a|)
  {
  }

  /** After `i` extents, `dest` has their bytes, up to `n`. */
  ghost predicate Copied(d: seq<Sector>, links: seq<LinkPointer>, i: nat, dest: seq<Byte>, n: nat)
  {
    Sized(d) && Readable(links, |d|) && i <= |links| && Readable(links[..i], |d|) && dest == Cap(ReadAll(d, links[..i]), n)
  }

  lemma CopiedMore(d: seq<Sector>, links: seq<LinkPointer>, i: nat, dest: seq<Byte>, n: nat)
    requires Copied(d, links, i, dest, n) && i < |links| && |dest| < n
    ensures Copied(d, links, i + 1, dest + Cap(ExtentData(d, links[i]), n - |dest|), n)
  {
    var next := links[..i + 1];
    SplitAt(links, i);
    assert Readable(next, |d|) by {
      forall k {:trigger next[k]} | 0 <= k < |next|
        ensures Direct(next[k]) && next[k].start + DivCeil(next[k].size, 512) <= |d|
      {
        assert next[k] == links[k];
      }
    }
    ReadAllSnoc(d, links[..i], links[i]);
    CapConcat(ReadAll(d, links[..i]), ExtentData(d, links[i]), n);
  }

  lemma {:induction false} CopiedEnough(d: seq<Sector>, links: seq<LinkPointer>, i: nat, dest: seq<Byte>, n: nat)
    requires Copied(d, links, i, dest, n) && (i == |links| || |dest| >= n)
    ensures dest == Cap(ReadAll(d, links), n)
  {
    var front, rest := links[..i], links[i..];
    assert links == front + rest;
    assert Readable(rest, |d|) by {
      forall k {:trigger rest[k]} | 0 <= k < |rest|
        ensures Direct(rest[k]) && rest[k].start + DivCeil(rest[k].size, 512) <= |d|
      {
        assert rest[k] == links[i + k];
      }
    }
    ReadAllConcat(d, front, rest);
    CapConcat(ReadAll(d, front), ReadAll(d, rest), n);
  }

  lemma CapTwice(page: seq<Byte>, size: nat, room: nat)
    requires size <= |page|
    ensures Cap(page[..size], room) == page[..if room < size then room else size]
  {
  }

  lemma CapSame(s: seq<Byte>, n: nat)
    ensures Cap(s, if |s| < n then |s| else n) == Cap(s, n)
  {
  }

  /** Copy the extents' bytes, up to the room there is. */
  method ReadLinks(v: Volume, links: seq<LinkPointer>, capacity: nat) returns (dest: seq<Byte>)
    requires v.Valid() && Readable(links, |v.D()|)
    ensures dest == Cap(ReadAll(v.D(), links), capacity)
  {
    ghost var d := v.D();
    var total := TotalSize(links);
    var readSize := if total < capacity then total else capacity;
    dest := [];
    assert links[..0] == [];
    CapSame(ReadAll(d, links), capacity);
    for i := 0 to |links|
      invariant Copied(d, links, i, dest, readSize)
    {
      if |dest| >= readSize {
        CopiedEnough(d, links, i, dest, readSize);
        return;
      }
      CopiedMore(d, links, i, dest, readSize);
      var link := links[i];
      var page := Fetch(v, link.start, DivCeil(link.size, 512));
      var room := readSize - |dest|;
      CapTwice(page, link.size, room);
      dest := dest + page[..if room < link.size then room else link.size];
    }
    CopiedEnough(d, links, |links|, dest, readSize);
  }

  lemma {:induction false} ReadAllConcat(d: seq<Sector>, a: seq<LinkPointer>, b: seq<LinkPointer>)
    requires Sized(d) && Readable(a, |d|) && Readable(b, |d|)
    ensures Readable(a + b, |d|) && ReadAll(d, a + b) == ReadAll(d, a) + ReadAll(d, b)
    decreases |a|
  {
    if a == [] {
      assert a + b == b;
    } else {
      assert (a + b)[0] == a[0] && (a + b)[1..] == a[1..] + b;
      ReadAllConcat(d, a[1..], b);
    }
  }

  /** `read_sectors`, as bytes. */
  method Fetch(v: Volume, start: nat, count: nat) returns (page: seq<Byte>)
    requires v.Valid() && start + count <= |v.D()|
    ensures Exist(Span(start, count), |v.D()|) && page == Joined(v.D(), Span(start, count))
  {
    page := [];
    for k := 0 to count
      invariant Exist(Span(start, k), |v.D()|) && page == Joined(v.D(), Span(start, k))
    {
      var s := v.Read(start + k);
      assert Span(start, k + 1) == Span(start, k) + [start + k];
      JoinedConcat(v.D(), Span(start, k), [start + k]);
      assert Joined(v.D(), [start + k]) == s.bytes + [];
      page := page + s.bytes;
    }
  }

  // ----- Reading back what was written -----

  /** The bytes of the source pages. */
  function SourceBytes(src: seq<Sector>): seq<Byte>
  {
    if src == [] then [] else src[0].bytes + SourceBytes(src[1..])
  }

  lemma {:induction false} JoinedSource(d: seq<Sector>, lbas: seq<nat>, src: seq<Sector>)
    requires Sized(d) && Exist(lbas, |d|) && |lbas| == |src| && forall k {:trigger lbas[k]} :: 0 <= k < |src| ==> d[lbas[k]] == src[k]
    ensures Joined(d, lbas) == SourceBytes(src)
    decreases |src|
  {
    if src != [] {
      var rest := lbas[1..];
      forall k {:trigger rest[k]} | 0 <= k < |rest|
        ensures rest[k] < |d| && d[rest[k]] == src[1..][k]
      {
        assert rest[k] == lbas[k + 1];
      }
      JoinedSource(d, rest, src[1..]);
      assert d[lbas[0]] == src[0];
    }
  }

  lemma {:induction false} WholeExtent(d: seq<Sector>, p: LinkPointer)
    requires Sized(d) && Whole(p) && p.start + DivCeil(p.size, 512) <= |d|
    ensures ExtentData(d, p) == Joined(d, Expand(p))
  {
    assert p.size == 512 * DivCeil(p.size, 512);
  }

  /** Whole extents read as their sectors, one after the other. */
  lemma {:induction false} WholeExtents(d: seq<Sector>, es: seq<LinkPointer>)
    requires Sized(d) && Readable(es, |d|) && forall i {:trigger es[i]} :: 0 <= i < |es| ==> Whole(es[i])
    ensures Exist(ExpandAll(es), |d|) && ReadAll(d, es) == Joined(d, ExpandAll(es))
    decreases |es|
  {
    if es != [] {
      WholeExtent(d, es[0]);
      WholeExtents(d, es[1..]);
      JoinedConcat(d, Expand(es[0]), ExpandAll(es[1..]));
    }
  }

  /** The extents of sectors that exist are readable. */
  lemma {:induction false} ExtentsReadable(es: seq<LinkPointer>, n: nat)
    requires Exist(ExpandAll(es), n) && forall i {:trigger es[i]} :: 0 <= i < |es| ==> Direct(es[i])
    ensures Readable(es, n)
    decreases |es|
  {
    if es != [] {
      var own, rest := Expand(es[0]), ExpandAll(es[1..]);
      var count := DivCeil(es[0].size, 512);
      assert count > 0 && ExpandAll(es) == own + rest;
      assert ExpandAll(es)[count - 1] == own[count - 1] == es[0].start + count - 1;
      forall k {:trigger rest[k]} | 0 <= k < |rest|
        ensures rest[k] < n
      {
        assert ExpandAll(es)[|own| + k] == rest[k];
      }
      ExtentsReadable(es[1..], n);
      forall i {:trigger es[i]} | 0 <= i < |es|
        ensures Direct(es[i]) && es[i].start + DivCeil(es[i].size, 512) <= n
      {
        assert i > 0 ==> es[i] == es[1..][i - 1];
      }
    }
  }

  /** A file that holds `src` reads as the bytes of `src`. */
  lemma {:induction false} ReadBack(d: seq<Sector>, data: seq<nat>, src: seq<Sector>)
    requires Sized(d) && |data| == |src| && Holds(d, data, src, |src|) && forall k {:trigger data[k]} :: 0 <= k < |data| ==> data[k] > 0
    ensures Readable(Coalesced(data), |d|) && ReadAll(d, Coalesced(data)) == SourceBytes(src)
  {
    CoalescedOk(data, |d|);
    ExtentsReadable(Coalesced(data), |d|);
    WholeExtents(d, Coalesced(data));
    JoinedSource(d, data, src);
  }
}
