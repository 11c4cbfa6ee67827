/** What the owner of a live block may do with its words. */
module UserBlocks {
  import opened FreeList
  import opened Container
  import opened Bytes

  /** Distinct live blocks have no word in common. */
  lemma BlocksApart(live: map<nat, nat>, hi: nat, a: nat, b: nat, x: nat)
    requires LiveOk(live, hi) && a in live && b in live && a != b && a <= x < a + live[a]
    ensures !(b <= x < b + live[b])
  {
    hide Even;
  }

  /** memcpy into a live block. */
  method StoreBytes(c: NVcontainer, ghost b: nat, off: nat, data: seq<byte>)
    requires c.Valid() && b in c.view.live && b < off && off + Words(|data|) <= b + c.view.live[b]
    modifies c.mem
    ensures c.Valid() && off + Words(|data|) <= c.mem.Length
    ensures c.mem[off..off + Words(|data|)] == Pack(data)
    ensures forall x :: 0 <= x < c.mem.Length && !(off <= x < off + Words(|data|)) ==> c.mem[x] == old(c.mem[x])
  {
    hide Inv, Rep, Pack;
    InParts(c.view, c.mem[..], b);
    ghost var w := c.mem[..];
    var ws := Pack(data);
    var i := 0;
    while i < |ws|
      invariant 0 <= i <= |ws| && c.Valid() && c.mem.Length == |w|
      invariant c.mem[off..off + i] == ws[..i]
      invariant forall x :: 0 <= x < |w| && !(off <= x < off + i) ==> c.mem[x] == w[x]
    {
      c.Store(b, off + i, ws[i]);
      assert c.mem[off..off + i + 1] == c.mem[off..off + i] + [ws[i]];
      i := i + 1;
    }
    assert ws[..i] == ws;
  }

  /** Reads back what StoreBytes left. */
  method LoadBytes(c: NVcontainer, off: nat, n: nat, ghost d: seq<byte>) returns (data: seq<byte>)
    requires n == |d| && off + Words(n) <= c.mem.Length && c.mem[off..off + Words(n)] == Pack(d)
    ensures data == d
  {
    hide Pack, Unpack, Words;
    UnpackPack(d);
    data := Unpack(c.mem[off..off + Words(n)], n);
  }

  lemma Layout(c: NVcontainer)
    requires c.Valid()
    ensures Inv(c.view) && Rep(c.mem[..], c.view) && c.view.free != [] && LiveOk(c.view.live, c.view.size)
    ensures USERDATA < HLEN < c.mem.Length
  {
    hide Inv, Rep, LiveOk, FreeOk;
    InvParts(c.view);
    TailHeader(c.view, c.mem[..]);
  }
}
