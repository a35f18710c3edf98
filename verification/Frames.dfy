/** Guest memory as a flat byte map, and its image in physical frames.

    A page is named by its key, its number plus one.  `frameNo` maps a key to
    the index of the page's 64 KiB frame, counted from `base`.  `Represents`
    says that the frames hold the flat memory `mem`, and each lemma below says
    that one physical change is one flat change. */
module Frames {

  const PAGE_SIZE := 65536
  // Every virtual top is below 2^48, and so is the last byte of its page
  const PAGES := 0x1_0000_0000
  const SPACE := 0x1_0000_0000_0000

  type Byte = b: int | 0 <= b < 256

  ghost function Zeroed(m: seq<Byte>, low: int, high: int): (r: seq<Byte>)
    ensures |r| == |m|
    ensures forall a :: 0 <= a < |m| ==> r[a] == if low <= a < high then 0 else m[a]
  {
    seq(|m|, a requires 0 <= a < |m| => if low <= a < high then 0 else m[a])
  }

  /** `m` with the bytes `data` written at `at`. */
  ghost function Written(m: seq<Byte>, at: int, data: seq<Byte>): (r: seq<Byte>)
    ensures |r| == |m|
    ensures forall a :: 0 <= a < |m| ==> r[a] == if at <= a < at + |data| then data[a - at] else m[a]
  {
    seq(|m|, a requires 0 <= a < |m| => if at <= a < at + |data| then data[a - at] else m[a])
  }

  /** `m` with `size` bytes copied from one place to another. */
  ghost function Moved(m: seq<Byte>, to: nat, from: nat, size: nat): (r: seq<Byte>)
    requires from + size <= |m|
    ensures |r| == |m|
    ensures forall a :: 0 <= a < |m| ==> r[a] == if to <= a < to + size then m[a - to + from] else m[a]
  {
    seq(|m|, a requires 0 <= a < |m| => if to <= a < to + size then m[a - to + from] else m[a])
  }

  function Key(a: nat): nat {
    a / 65536 + 1
  }

  /** Where a page starts, and where an address lies in its page. */
  function Page(key: nat): int {
    (key - 1) * 65536
  }

  function Offset(a: nat): nat {
    a % 65536
  }

  function Start(base: nat, k: nat): nat {
    base + k * 65536
  }

  /** Every page of `me` has a frame that was handed out to `me` for that page;
      hence no two pages share a frame. */
  ghost predicate HandedOut(frameNo: map<nat, nat>, use: seq<(object, nat)>, me: object) {
    forall k :: k in frameNo ==> 0 < k <= PAGES && frameNo[k] < |use| && use[frameNo[k]] == (me, k)
  }

  ghost function Stored(bytes: seq<Byte>, frameNo: map<nat, nat>, base: nat, a: nat): Byte
    requires Key(a) in frameNo ==> Start(base, frameNo[Key(a)]) + PAGE_SIZE <= |bytes|
  {
    if Key(a) in frameNo then bytes[Start(base, frameNo[Key(a)]) + Offset(a)] else 0
  }

  ghost predicate Represents(mem: seq<Byte>, bytes: seq<Byte>, frameNo: map<nat, nat>, base: nat,
                             use: seq<(object, nat)>, me: object) {
    && |mem| == SPACE
    && Start(base, |use|) <= |bytes|
    && HandedOut(frameNo, use, me)
    && forall a :: 0 <= a < SPACE ==> mem[a] == Stored(bytes, frameNo, base, a)
  }

  /** An address lies in a span of a page exactly when its frame byte lies in
      the same span of the page's frame. */
  lemma SamePlace(frameNo: map<nat, nat>, base: nat, use: seq<(object, nat)>, me: object, key: nat, offset: nat,
                  length: nat, a: nat)
    requires HandedOut(frameNo, use, me) && key in frameNo && offset + length <= PAGE_SIZE
    requires Key(a) in frameNo
    ensures var x := Start(base, frameNo[Key(a)]) + Offset(a);
            var at, to := Page(key) + offset, Start(base, frameNo[key]) + offset;
            && (at <= a < at + length <==> to <= x < to + length)
            && (at <= a < at + length ==> a - at == x - to)
  {
  }

  lemma WriteInFrame(mem: seq<Byte>, bytes: seq<Byte>, frameNo: map<nat, nat>, base: nat, use: seq<(object, nat)>,
                     me: object,
                     key: nat, offset: nat, data: seq<Byte>, at: nat, to: nat)
    requires Represents(mem, bytes, frameNo, base, use, me)
    requires key in frameNo && offset + |data| <= PAGE_SIZE
    requires at == Page(key) + offset && to == Start(base, frameNo[key]) + offset
    ensures Represents(Written(mem, at, data), Written(bytes, to, data), frameNo, base, use, me)
  {
    var mem', bytes' := Written(mem, at, data), Written(bytes, to, data);
    forall a | 0 <= a < SPACE ensures mem'[a] == Stored(bytes', frameNo, base, a) {
      assert mem[a] == Stored(bytes, frameNo, base, a);
      if Key(a) in frameNo { SamePlace(frameNo, base, use, me, key, offset, |data|, a); }
    }
  }

  lemma ZeroInFrame(mem: seq<Byte>, bytes: seq<Byte>, frameNo: map<nat, nat>, base: nat, use: seq<(object, nat)>,
                    me: object,
                     key: nat, offset: nat, length: nat)
    requires Represents(mem, bytes, frameNo, base, use, me)
    requires key in frameNo && offset + length <= PAGE_SIZE
    ensures var at, to := Page(key) + offset, Start(base, frameNo[key]) + offset;
            Represents(Zeroed(mem, at, at + length), Zeroed(bytes, to, to + length), frameNo, base, use, me)
  {
    var at, to := Page(key) + offset, Start(base, frameNo[key]) + offset;
    var mem', bytes' := Zeroed(mem, at, at + length), Zeroed(bytes, to, to + length);
    forall a | 0 <= a < SPACE ensures mem'[a] == Stored(bytes', frameNo, base, a) {
      assert mem[a] == Stored(bytes, frameNo, base, a);
      if Key(a) in frameNo { SamePlace(frameNo, base, use, me, key, offset, length, a); }
    }
  }

  lemma MoveInFrame(mem: seq<Byte>, bytes: seq<Byte>, frameNo: map<nat, nat>, base: nat, use: seq<(object, nat)>,
                    me: object,
                    key: nat, offset: nat, fromKey: nat, fromOffset: nat, size: nat, at: nat, to: nat, source: nat,
                        from: nat)
    requires Represents(mem, bytes, frameNo, base, use, me)
    requires key in frameNo && offset + size <= PAGE_SIZE && fromKey in frameNo && fromOffset + size <= PAGE_SIZE
    requires at == Page(key) + offset && to == Start(base, frameNo[key]) + offset
    requires source == Page(fromKey) + fromOffset && from == Start(base, frameNo[fromKey]) + fromOffset
    requires source + size <= |mem| && from + size <= |bytes|
    ensures Represents(Moved(mem, at, source, size), Moved(bytes, to, from, size), frameNo, base, use, me)
  {
    var data := seq(size, i requires 0 <= i < size => mem[source + i]);
    forall i | 0 <= i < size ensures data[i] == bytes[from + i] {
      ReadInFrame(mem, bytes, frameNo, base, use, me, fromKey, fromOffset + i);
    }
    assert Written(mem, at, data) == Moved(mem, at, source, size);
    assert Written(bytes, to, data) == Moved(bytes, to, from, size);
    WriteInFrame(mem, bytes, frameNo, base, use, me, key, offset, data, at, to);
  }

  lemma ReadInFrame(mem: seq<Byte>, bytes: seq<Byte>, frameNo: map<nat, nat>, base: nat, use: seq<(object, nat)>,
                    me: object,
                    key: nat, offset: nat)
    requires Represents(mem, bytes, frameNo, base, use, me) && key in frameNo && offset < PAGE_SIZE
    ensures 0 <= Page(key) + offset < |mem| && Start(base, frameNo[key]) + offset < |bytes|
    ensures mem[Page(key) + offset] == bytes[Start(base, frameNo[key]) + offset]
  {
    var a := Page(key) + offset;
    assert Key(a) == key && Offset(a) == offset;
    assert mem[a] == Stored(bytes, frameNo, base, a);
  }

  /** A page that was absent reads as zero, and so does its new frame. */
  lemma AddFrame(mem: seq<Byte>, bytes: seq<Byte>, frameNo: map<nat, nat>, base: nat, use: seq<(object, nat)>,
                 me: object, key: nat)
    requires Represents(mem, bytes, frameNo, base, use, me)
    requires key !in frameNo && 0 < key <= PAGES && Start(base, |use|) + PAGE_SIZE <= |bytes|
    ensures Represents(mem, Zeroed(bytes, Start(base, |use|), Start(base, |use|) + PAGE_SIZE),
                       frameNo[key := |use|], base, use + [(me, key)], me)
  {
    var k := |use|;
    var bytes', frameNo', use' := Zeroed(bytes, Start(base, k), Start(base, k) + PAGE_SIZE), frameNo[key := k], use +
        [(me, key)];
    forall a | 0 <= a < SPACE ensures mem[a] == Stored(bytes', frameNo', base, a) {
      assert mem[a] == Stored(bytes, frameNo, base, a);
      if Key(a) in frameNo {
        SamePlace(frameNo', base, use', me, key, 0, PAGE_SIZE, a);
      }
    }
  }

  /** Only the bytes of its own frames matter to a guest. */
  lemma OtherFramesChange(mem: seq<Byte>, bytes: seq<Byte>, bytes': seq<Byte>, frameNo: map<nat, nat>, base: nat,
                          use: seq<(object, nat)>, use': seq<(object, nat)>, me: object)
    requires Represents(mem, bytes, frameNo, base, use, me) && |bytes| == |bytes'|
    requires use <= use' && Start(base, |use'|) <= |bytes|
    requires forall p, x :: p in frameNo && Start(base, frameNo[p]) <= x < Start(base, frameNo[p]) + PAGE_SIZE ==>
             bytes'[x] == bytes[x]
    ensures Represents(mem, bytes', frameNo, base, use', me)
  {
    forall a | 0 <= a < SPACE ensures mem[a] == Stored(bytes', frameNo, base, a) {
      assert mem[a] == Stored(bytes, frameNo, base, a);
      if Key(a) in frameNo {
        var x := Start(base, frameNo[Key(a)]) + Offset(a);
        assert bytes'[x] == bytes[x];
      }
    }
  }
}
