/**
 The vector with inline storage that holds the CSRC list (backend/src/ThirdParty/RtpCpp/SmallVector.hpp and .cpp).
 A move of an element leaves the value behind, as it does for the trivially copyable types the vector is used with.
 */
module SmallVectors {
  import opened Blocks
  import opened Option

  // ----- growth -----

  /** Room for what is asked, and twice the room there was unless the size type cannot express that. */
  predicate Suffices(c: nat, minSize: nat, current: nat, max: nat) {
    minSize <= c <= max && (c > 2 * current || c == max)
  }

  /** `getNewCapacity`: the least that suffices; no capacity when the size type cannot express what is asked for. */
  function NewCapacity(minSize: nat, current: nat, max: nat): (r: Option<nat>)
    requires current <= max
    ensures r.Some? <==> minSize <= max && current < max
    ensures r.Some? ==> Suffices(r.value, minSize, current, max) && current < r.value
    ensures r.Some? ==> forall c :: Suffices(c, minSize, current, max) ==> r.value <= c
  {
    if minSize > max || current == max then None
    else
      var doubled := 2 * current + 1;
      Some(if doubled < minSize then minSize else if max < doubled then max else doubled)
  }

  datatype Op<T> = Push(value: T) | Pop

  /** Sizes along a run: `copied` counts the elements that growing moved, `peak` is the largest size so far. */
  datatype Tally = Tally(size: nat, capacity: nat, copied: nat, peak: nat)

  function Counted<T>(t: Tally, op: Op<T>, max: nat): Tally
    requires t.size <= t.capacity <= max
  {
    match op
    case Pop => if t.size == 0 then t else t.(size := t.size - 1)
    case Push(_) =>
      var grown := if t.size < t.capacity then Some(t.capacity) else NewCapacity(t.size + 1, t.capacity, max);
      if grown.None? then t
      else Tally(t.size + 1, grown.value, if t.size < t.capacity then t.copied else t.copied + t.size,
                 if t.peak < t.size + 1 then t.size + 1 else t.peak)
  }

  function CountedAll<T>(t: Tally, ops: seq<Op<T>>, max: nat): (r: Tally)
    requires t.size <= t.capacity <= max
    ensures r.size <= r.capacity <= max
  {
    if ops == [] then t else Counted(CountedAll(t, ops[..|ops| - 1], max), ops[|ops| - 1], max)
  }

  /** Growing is paid for: it moves at most two elements for each one the vector ever held at once. */
  lemma {:induction false} CopiedTwicePeak<T>(inlineSize: nat, ops: seq<Op<T>>, max: nat)
    requires inlineSize <= max
    ensures var r := CountedAll(Tally(0, inlineSize, 0, 0), ops, max);
            r.copied <= 2 * r.peak && r.size <= r.peak && (r.capacity < max ==> r.copied <= r.capacity)
  {
    if ops == [] {
    } else {
      CopiedTwicePeak(inlineSize, ops[..|ops| - 1], max);
    }
  }

  /** What a push or pop makes of a stack, as long as the size type lets it grow. */
  function StackStep<T>(s: seq<T>, op: Op<T>, max: nat): seq<T> {
    match op
    case Push(x) => if |s| < max then s + [x] else s
    case Pop => if s == [] then s else s[..|s| - 1]
  }

  function Stacked<T>(s: seq<T>, ops: seq<Op<T>>, max: nat): seq<T> {
    if ops == [] then s else StackStep(Stacked(s, ops[..|ops| - 1], max), ops[|ops| - 1], max)
  }

  /** The largest size the stack has along the run, at its start and after each operation. */
  ghost predicate Peaks<T>(ops: seq<Op<T>>, max: nat, peak: nat) {
    && (forall n :: 0 <= n <= |ops| ==> |Stacked([], ops[..n], max)| <= peak)
    && exists n :: 0 <= n <= |ops| && |Stacked([], ops[..n], max)| == peak
  }

  lemma PeaksOneMore<T>(ops: seq<Op<T>>, op: Op<T>, max: nat, peak: nat)
    requires Peaks(ops, max, peak)
    ensures var size := |Stacked([], ops + [op], max)|;
            Peaks(ops + [op], max, if size > peak then size else peak)
  {
    hide Stacked;
    var all := ops + [op];
    assert all[..|all|] == all;
    assert forall n :: 0 <= n <= |ops| ==> all[..n] == ops[..n];
  }

  /** The tally's size is the stack's, and its peak the largest size on the way. */
  lemma {:induction false} PeakReached<T>(inlineSize: nat, ops: seq<Op<T>>, max: nat)
    requires inlineSize <= max
    ensures var r := CountedAll(Tally(0, inlineSize, 0, 0), ops, max);
            r.size == |Stacked([], ops, max)| && Peaks(ops, max, r.peak)
  {
    if ops == [] {
      assert |Stacked<T>([], ops[..0], max)| == 0;
    } else {
      var init, op := ops[..|ops| - 1], ops[|ops| - 1];
      PeakReached(inlineSize, init, max);
      var t, stack := CountedAll(Tally(0, inlineSize, 0, 0), init, max), Stacked([], init, max);
      PeakBounds(inlineSize, init, max);
      CountedStep(t, stack, op, max);
      PeaksOneMore(init, op, max, t.peak);
      assert ops == init + [op];
      hide Peaks, Counted, StackStep;
    }
  }

  lemma CountedStep<T>(t: Tally, stack: seq<T>, op: Op<T>, max: nat)
    requires t.size == |stack| <= t.capacity <= max && t.size <= t.peak
    ensures var r, size := Counted(t, op, max), |StackStep(stack, op, max)|;
            r.size == size && r.peak == if size > t.peak then size else t.peak
  {
  }

  lemma PeakBounds<T>(inlineSize: nat, ops: seq<Op<T>>, max: nat)
    requires inlineSize <= max
    ensures var r := CountedAll(Tally(0, inlineSize, 0, 0), ops, max); r.size <= r.peak
  {
    CopiedTwicePeak(inlineSize, ops, max);
  }

  // ----- ranges of one block -----

  /** `b` with its own elements from `first` up to `last` written from `at` on. */
  function Shifted<T>(b: seq<T>, at: nat, first: nat, last: nat): (r: seq<T>)
    requires first <= last <= |b| && at + (last - first) <= |b|
    ensures |r| == |b|
  {
    Splice(b, at, b[first..last])
  }

  lemma ShiftedNone<T>(b: seq<T>, at: nat, first: nat)
    requires at <= |b| && first <= |b|
    ensures Shifted(b, at, first, first) == b
  {
  }

  /** One more element moved up: the next one is still in its place. */
  lemma RaiseStep<T>(b: seq<T>, at: nat, k: nat, last: nat)
    requires 0 < k <= last <= |b| && k <= at && at + (last - k) <= |b|
    ensures var r := Shifted(b, at, k, last);
            r[k - 1] == b[k - 1] && r[at - 1 := b[k - 1]] == Shifted(b, at - 1, k - 1, last)
  {
    assert b[k - 1..last] == [b[k - 1]] + b[k..last];
  }

  /** One more element moved down. */
  lemma LowerStep<T>(b: seq<T>, at: nat, first: nat, k: nat)
    requires at <= first <= k < |b|
    ensures var r := Shifted(b, at, first, k);
            r[k] == b[k] && r[at + (k - first) := b[k]] == Shifted(b, at, first, k + 1)
  {
    assert b[first..k + 1] == b[first..k] + [b[k]];
  }

  /** `std::move_backward`: to a range that ends later, last element first. */
  method MoveUp<T>(a: array<T>, first: nat, last: nat, end: nat)
    requires first <= last <= end <= a.Length
    modifies a
    ensures a[..] == Shifted(old(a[..]), end - (last - first), first, last)
  {
    hide Shifted;
    ghost var b := a[..];
    var k, at := last, end;
    ShiftedNone(b, end, last);
    while k > first
      invariant first <= k <= last && at == end - (last - k)
      invariant a[..] == Shifted(b, at, k, last)
    {
      RaiseStep(b, at, k, last);
      k, at := k - 1, at - 1;
      a[at] := a[k];
    }
  }

  /** `std::move`: to a range that starts no later, first element first. */
  method MoveDown<T>(a: array<T>, first: nat, last: nat, start: nat)
    requires start <= first <= last <= a.Length
    modifies a
    ensures a[..] == Shifted(old(a[..]), start, first, last)
  {
    hide Shifted;
    ghost var b := a[..];
    var k := first;
    ShiftedNone(b, start, first);
    while k < last
      invariant first <= k <= last
      invariant a[..] == Shifted(b, start, first, k)
    {
      LowerStep(b, start, first, k);
      a[start + (k - first)] := a[k];
      k := k + 1;
    }
  }

  /** `uninitialized_copy`, a `memcpy` for such types: the two ranges may not overlap. */
  method CopyApart<T>(src: array<T>, first: nat, last: nat, dst: array<T>, at: nat)
    requires first <= last <= src.Length && at + (last - first) <= dst.Length
    requires src == dst ==> last <= at || at + (last - first) <= first
    modifies dst
    ensures dst[..] == Splice(old(dst[..]), at, old(src[first..last]))
  {
    MemCopy(dst, at, src[first..last]);
  }

  /** A parameter taken by reference, which may sit in a vector's own storage. */
  datatype Param<T> = Loose(value: T) | At(block: array<T>, index: nat) {
    predicate InBounds() { At? ==> index < block.Length }

    function Read(): T
      requires InBounds()
      reads if At? then {block} else {}
    {
      if Loose? then value else block[index]
    }

    function Raised(n: nat): Param<T> {
      if Loose? then this else At(block, index + n)
    }
  }

  function Copies<T>(n: nat, x: T): seq<T> { seq(n, _ => x) }

  /** `fill_n`: the value is read anew for every element, so it may not lie in the range. */
  method Fill<T>(a: array<T>, at: nat, n: nat, p: Param<T>)
    requires at + n <= a.Length && p.InBounds() && (p.At? && p.block == a ==> p.index < at || at + n <= p.index)
    modifies a
    ensures a[..] == Splice(old(a[..]), at, Copies(n, old(p.Read()))) && p.Read() == old(p.Read())
  {
    for k := 0 to n
      invariant p.Read() == old(p.Read())
      invariant forall j :: 0 <= j < at || at + k <= j < a.Length ==> a[j] == old(a[j])
      invariant forall j :: at <= j < at + k ==> a[j] == old(p.Read())
    {
      a[at + k] := p.Read();
    }
  }

  /** `x` with its first `n` elements from `y`. */
  function Fronted<T>(x: seq<T>, y: seq<T>, n: nat): (r: seq<T>)
    requires n <= |x| && n <= |y|
    ensures |r| == |x|
  {
    y[..n] + x[n..]
  }

  lemma FrontStep<T>(x: seq<T>, y: seq<T>, n: nat)
    requires n < |x| && n < |y|
    ensures var r := Fronted(x, y, n);
            r[n] == x[n] && r[n := y[n]] == Fronted(x, y, n + 1)
  {
  }

  /** The loop of `swap` over the elements both have. */
  method SwapShared<T>(a: array<T>, b: array<T>, n: nat)
    requires a != b && n <= a.Length && n <= b.Length
    modifies a, b
    ensures a[..] == Fronted(old(a[..]), old(b[..]), n) && b[..] == Fronted(old(b[..]), old(a[..]), n)
  {
    ghost var x, y := a[..], b[..];
    assert x == Fronted(x, y, 0) && y == Fronted(y, x, 0);
    hide Fronted;
    for i := 0 to n
      invariant a[..] == Fronted(x, y, i) && b[..] == Fronted(y, x, i)
    {
      FrontStep(x, y, i);
      FrontStep(y, x, i);
      a[i], b[i] := b[i], a[i];
    }
  }

  /** The longer vector's rest goes behind the shared elements. */
  lemma SwappedRest<T>(x: seq<T>, y: seq<T>, m: nat, n: nat)
    requires m <= n <= |x| && n <= |y|
    ensures Splice(Fronted(y, x, m), m, Fronted(x, y, m)[m..n])[..n] == x[..n] && Fronted(x, y, m)[..m] == y[..m]
  {
  }

  lemma CopiedFront<T>(d: seq<T>, s: seq<T>, m: nat, n: nat)
    requires m <= n <= |s| && n <= |d|
    ensures Splice(Splice(d, 0, s[..m]), m, s[m..n])[..n] == s[..n] && Splice(d, 0, s[0..n])[..n] == s[..n]
  {
  }

  // ----- what the writes of an insertion amount to -----

  /** `w` put in before position `i`. */
  function Inserted<T>(s: seq<T>, i: nat, w: seq<T>): seq<T>
    requires i <= |s|
  {
    s[..i] + w + s[i..]
  }

  lemma InsertedAt<T>(s: seq<T>, i: nat, w: seq<T>, k: nat)
    requires i <= |s| && k < |s| + |w|
    ensures |Inserted(s, i, w)| == |s| + |w|
    ensures Inserted(s, i, w)[k] == if k < i then s[k] else if k < i + |w| then w[k - i] else s[k - |w|]
  {
  }

  /** At least as many elements behind `i` as are put in: the last ones go up first, then the others. */
  function LongTail<T>(b: seq<T>, size: nat, i: nat, n: nat): (r: seq<T>)
    requires i + n <= size && size + n <= |b|
    ensures |r| == |b|
  {
    Shifted(Shifted(b, size, size - n, size), i + n, i, size - n)
  }

  lemma LongTailAt<T>(b: seq<T>, size: nat, i: nat, n: nat, k: nat)
    requires i + n <= size && size + n <= |b| && k < size
    ensures LongTail(b, size, i, n)[if k < i then k else k + n] == b[k]
  {
  }

  lemma LongTailInserts<T>(b: seq<T>, size: nat, i: nat, w: seq<T>)
    requires i + |w| <= size && size + |w| <= |b|
    ensures Splice(LongTail(b, size, i, |w|), i, w)[..size + |w|] == Inserted(b[..size], i, w)
  {
    var n := |w|;
    var r, s := Splice(LongTail(b, size, i, n), i, w), Inserted(b[..size], i, w);
    forall j | 0 <= j < size + n
      ensures r[j] == s[j]
    {
      if j < i {
        LongTailAt(b, size, i, n, j);
      } else if i + n <= j {
        LongTailAt(b, size, i, n, j - n);
      }
    }
    assert r[..size + n] == s;
  }

  /** Fewer elements behind `i` than are put in: all of them go up at once. */
  function ShortTail<T>(b: seq<T>, size: nat, i: nat, n: nat): (r: seq<T>)
    requires i <= size < i + n && size + n <= |b|
    ensures |r| == |b|
  {
    Shifted(b, i + n, i, size)
  }

  lemma ShortTailAt<T>(b: seq<T>, size: nat, i: nat, n: nat, k: nat)
    requires i <= size < i + n && size + n <= |b| && k < size
    ensures ShortTail(b, size, i, n)[if k < i then k else k + n] == b[k]
  {
  }

  /** The part over the old elements and the part behind them are filled separately. */
  lemma ShortTailInserts<T>(b: seq<T>, size: nat, i: nat, w: seq<T>)
    requires i <= size < i + |w| && size + |w| <= |b|
    ensures var over := Splice(ShortTail(b, size, i, |w|), i, w[..size - i]);
            Splice(over, size, w[size - i..])[..size + |w|] == Inserted(b[..size], i, w)
  {
    var n := |w|;
    var r := Splice(Splice(ShortTail(b, size, i, n), i, w[..size - i]), size, w[size - i..]);
    var s := Inserted(b[..size], i, w);
    forall j | 0 <= j < size + n
      ensures r[j] == s[j]
    {
      if j < i {
        ShortTailAt(b, size, i, n, j);
      } else if i + n <= j {
        ShortTailAt(b, size, i, n, j - n);
      }
    }
    assert r[..size + n] == s;
  }

  class SmallVector<T(0)> {
    /** The storage inside the object, behind its other fields. */
    const inline: array<T>
    /** The largest value of the size type. */
    const maxSize: nat
    /** `TakesParamByValue`: small types are passed as values, larger ones by reference. */
    const byValue: bool
    var data: array<T>
    var size: nat
    var capacity: nat
    ghost var copied: nat

    ghost predicate Valid()
      reads this
    {
      && size <= capacity <= maxSize && capacity <= data.Length && inline.Length <= maxSize
      && (!IsSmall() ==> capacity == data.Length)
    }

    predicate IsSmall()
      reads this
    {
      data == inline
    }

    ghost function Contents(): (s: seq<T>)
      reads this, data
      requires Valid()
      ensures |s| == size
    {
      data[..size]
    }

    /** A reference parameter may point at one of the vector's elements, or at nothing of the vector's. */
    ghost predicate Takes(p: Param<T>)
      reads this
    {
      p.At? ==> p.block == data && p.index < size
    }

    /** No block is used by both, neither on the heap nor inline. */
    ghost predicate Separate(other: SmallVector<T>)
      reads this, other
    {
      inline != other.inline && inline != other.data && data != other.inline && data != other.data
    }

    constructor (inlineSize: nat, maxSize: nat, byValue: bool)
      requires inlineSize <= maxSize
      ensures Valid() && Contents() == [] && IsSmall() && fresh(inline)
      ensures inline.Length == capacity == inlineSize && copied == 0
      ensures this.maxSize == maxSize && this.byValue == byValue
    {
      var a := new T[inlineSize];
      inline, data, size, capacity, copied := a, a, 0, inlineSize, 0;
      this.maxSize, this.byValue := maxSize, byValue;
    }

    /** `grow`: the elements go to a new block; nothing changes when there is no capacity to grow to. */
    method Grow(minSize: nat) returns (ok: bool)
      requires Valid()
      modifies this`data, this`capacity, this`copied
      ensures Valid() && Contents() == old(Contents())
      ensures ok <==> NewCapacity(minSize, old(capacity), maxSize).Some?
      ensures ok ==> fresh(data) && capacity == NewCapacity(minSize, old(capacity), maxSize).value
      ensures ok ==> copied == old(copied) + size
      ensures !ok ==> unchanged(this)
    {
      var grown := NewCapacity(minSize, capacity, maxSize);
      if grown.None? {
        return false;
      }
      var block := new T[grown.value];
      CopyApart(data, 0, size, block, 0);
      data, capacity := block, grown.value;
      copied := copied + size;
      return true;
    }

    method Reserve(n: nat) returns (ok: bool)
      requires Valid()
      modifies this`data, this`capacity, this`copied
      ensures Valid() && Contents() == old(Contents())
      ensures ok <==> n <= maxSize
      ensures ok ==> n <= capacity
      ensures n <= old(capacity) || !ok ==> unchanged(this)
      ensures data == old(data) || fresh(data)
    {
      ok := true;
      if capacity < n {
        ok := Grow(n);
      }
    }

    /** `reserveForParamAndGetAddress`: makes room for `n` more and says where the parameter then is. */
    method ReserveForParam(p: Param<T>, n: nat) returns (ok: bool, q: Param<T>)
      requires Valid() && Takes(p) && (byValue ==> p.Loose?)
      modifies this`data, this`capacity, this`copied
      ensures Valid() && Contents() == old(Contents())
      ensures ok <==> size + n <= maxSize
      ensures ok ==> size + n <= capacity && Takes(q) && q.Read() == old(p.Read()) && q.At? == p.At?
      ensures !ok ==> unchanged(this)
      ensures data == old(data) || fresh(data)
    {
      q := p;
      var newSize := size + n;
      if newSize <= capacity {
        return true, p;
      }
      var referencesStorage := !byValue && p.At? && p.block == data && p.index < size;
      ok := Grow(newSize);
      if ok && referencesStorage {
        q := At(data, p.index);
        assert data[p.index] == Contents()[p.index] == old(Contents())[p.index];
      }
    }

    /** A parameter on its way into a call: by value where the type is small. */
    function Passed(p: Param<T>): Param<T>
      reads this, if p.At? then {p.block} else {}
      requires p.InBounds()
    {
      if byValue then Loose(p.Read()) else p
    }

    method PushBack(elt: Param<T>) returns (ok: bool)
      requires Valid() && Takes(elt)
      modifies this, data
      ensures Valid() && (data == old(data) || fresh(data))
      ensures ok <==> old(size) < maxSize
      ensures Contents() == if ok then old(Contents() + [elt.Read()]) else old(Contents())
      ensures !ok ==> unchanged(this)
      ensures capacity == if old(size) < old(capacity) || !ok then old(capacity)
                          else NewCapacity(size, old(capacity), maxSize).value
      ensures copied == if old(size) < old(capacity) || !ok then old(copied) else old(copied + size)
    {
      var value := elt.Read();
      ok := true;
      if size >= capacity {
        ok := Grow(size + 1);
      }
      if ok {
        ghost var before := Contents();
        data[size] := value;
        size := size + 1;
        assert data[..size] == before + [value];
      }
    }

    method PopBack()
      requires Valid() && size > 0
      modifies this`size
      ensures Valid() && Contents() == old(Contents())[..old(size) - 1]
    {
      size := size - 1;
    }

    /** `append` of copies of one element. */
    method AppendCopies(n: nat, elt: Param<T>) returns (ok: bool)
      requires Valid() && Takes(elt)
      modifies this`data, this`capacity, this`copied, this`size, data
      ensures Valid() && (data == old(data) || fresh(data))
      ensures ok <==> old(size) + n <= maxSize
      ensures Contents() == old(Contents()) + if ok then Copies(n, old(elt.Read())) else []
      ensures !ok ==> unchanged(this)
    {
      var p;
      ok, p := ReserveForParam(Passed(elt), n);
      if ok {
        ghost var b := data[..];
        Fill(data, size, n, p);
        size := size + n;
        assert data[..size] == b[..old(size)] + Copies(n, old(elt.Read()));
      }
    }

    /** `append` of a range; one that lies in the vector is only allowed when there is room already. */
    method AppendRange(src: array<T>, first: nat, last: nat) returns (ok: bool)
      requires Valid() && first <= last <= src.Length
      requires src == data ==> last <= size && size + (last - first) <= capacity
      modifies this`data, this`capacity, this`copied, this`size, data
      ensures Valid() && (data == old(data) || fresh(data))
      ensures ok <==> old(size) + (last - first) <= maxSize
      ensures Contents() == old(Contents()) + if ok then old(src[first..last]) else []
      ensures old(size) + (last - first) <= old(capacity) ==>
        && data == old(data) && capacity == old(capacity)
        && data[..] == Splice(old(data[..]), old(size), old(src[first..last]))
      ensures !ok ==> unchanged(this)
    {
      var n := last - first;
      ok := Reserve(size + n);
      if ok {
        CopyApart(src, first, last, data, size);
        size := size + n;
      }
    }

    /** Everything from `i` on goes up by one place, last element first, and a parameter in there goes with it. */
    method RaiseOne(i: nat, p: Param<T>) returns (q: Param<T>)
      requires Valid() && i < size < capacity && Takes(p) && (byValue ==> p.Loose?)
      modifies this`size, data
      ensures Valid() && size == old(size) + 1
      ensures data[..] == LongTail(old(data[..]), old(size), i, 1)
      ensures Takes(q) && q.Read() == old(p.Read())
    {
      hide Shifted, LongTail;
      ghost var b := data[..];
      data[size] := data[size - 1];
      RaisedOne(b, size, i, data[..]);
      MoveUp(data, i, size - 1, size);
      size := size + 1;
      q := p;
      if p.At? {
        LongTailAt(b, size - 1, i, 1, p.index);
      }
      if !byValue && p.At? && p.block == data && i <= p.index < size {
        q := p.Raised(1);
      }
    }

    /** The part of `insert_one_impl` behind the reservation. */
    method PlaceOne(i: nat, p: Param<T>)
      requires Valid() && i < size < capacity && Takes(p) && (byValue ==> p.Loose?)
      modifies this`size, data
      ensures Valid() && Contents() == Inserted(old(Contents()), i, [old(p.Read())])
    {
      hide Inserted, LongTail, Splice;
      ghost var b, value := data[..], p.Read();
      var q := RaiseOne(i, p);
      data[i] := q.Read();
      SpliceOne(LongTail(b, size - 1, i, 1), i, value);
      LongTailInserts(b, size - 1, i, [value]);
    }

    /** `insert_one_impl`. */
    method InsertOne(i: nat, elt: Param<T>) returns (ok: bool)
      requires Valid() && i <= size && Takes(elt)
      modifies this, data
      ensures Valid() && (data == old(data) || fresh(data))
      ensures ok <==> old(size) < maxSize
      ensures Contents() == if ok then Inserted(old(Contents()), i, [old(elt.Read())]) else old(Contents())
      ensures !ok ==> unchanged(this)
    {
      hide Inserted;
      var p := Passed(elt);
      ghost var value, s := elt.Read(), Contents();
      if i == size {
        InsertedAtEnd(s, [value]);
        ok := PushBack(p);
        return;
      }
      ok, p := ReserveForParam(p, 1);
      if ok {
        PlaceOne(i, p);
      }
    }

    /** Makes a gap of `n` before `i` when at least as many elements follow. */
    method RaiseLong(i: nat, n: nat)
      requires Valid() && i + n <= size && size + n <= capacity
      modifies this`size, this`data, this`capacity, this`copied, data
      ensures Valid() && size == old(size) + n && data == old(data) && capacity == old(capacity)
      ensures data[..] == LongTail(old(data[..]), old(size), i, n)
    {
      hide Shifted;
      ghost var b := data[..];
      var end := size;
      var ok := AppendRange(data, end - n, end);
      AppendedTail(b, end, n);
      MoveUp(data, i, end - n, end);
    }

    /** Makes a gap of `n` before `i` when fewer elements follow. */
    method RaiseShort(i: nat, n: nat)
      requires Valid() && i <= size < i + n && size + n <= capacity
      modifies this`size, data
      ensures Valid() && size == old(size) + n
      ensures data[..] == ShortTail(old(data[..]), old(size), i, n)
    {
      hide Shifted, Splice;
      ghost var b := data[..];
      var end := size;
      size := size + n;
      CopyApart(data, i, end, data, size - (end - i));
      MovedTail(b, end, i, n);
    }

    /** The first branch of `insert` of `n` copies. */
    method InsertCopiesLong(i: nat, n: nat, elt: Param<T>)
      requires Valid() && i + n <= size && size + n <= capacity && Takes(elt) && (byValue ==> elt.Loose?)
      modifies this`size, this`data, this`capacity, this`copied, data
      ensures Valid() && size == old(size) + n && data == old(data)
      ensures Contents() == Inserted(old(Contents()), i, Copies(n, old(elt.Read())))
    {
      hide Splice, LongTail, Copies, Inserted;
      ghost var b, end, value := data[..], size, elt.Read();
      RaiseLong(i, n);
      var p := elt;
      if p.At? {
        LongTailAt(b, end, i, n, p.index);
      }
      if !byValue && p.At? && i <= p.index < size {
        p := p.Raised(n);
      }
      Fill(data, i, n, p);
      SplitCopies(n, 0, value);
      LongTailInserts(b, end, i, Copies(n, value));
    }

    /** The second branch of `insert` of `n` copies. */
    method InsertCopiesShort(i: nat, n: nat, elt: Param<T>)
      requires Valid() && i <= size < i + n && size + n <= capacity && Takes(elt) && (byValue ==> elt.Loose?)
      modifies this`size, data
      ensures Valid() && size == old(size) + n
      ensures Contents() == Inserted(old(Contents()), i, Copies(n, old(elt.Read())))
    {
      hide Splice, ShortTail, Copies, Inserted;
      ghost var b, value := data[..], elt.Read();
      var end := size;
      RaiseShort(i, n);
      var p := elt;
      if p.At? {
        ShortTailAt(b, end, i, n, p.index);
      }
      if !byValue && p.At? && i <= p.index < size {
        p := p.Raised(n);
      }
      var overwritten := end - i;
      Fill(data, i, overwritten, p);
      Fill(data, end, n - overwritten, p);
      SplitCopies(n, overwritten, value);
      ShortTailInserts(b, end, i, Copies(n, value));
    }

    /** `insert` of `n` copies of one element. */
    method InsertCopies(i: nat, n: nat, elt: Param<T>) returns (ok: bool)
      requires Valid() && i <= size && Takes(elt)
      modifies this, data
      ensures Valid() && (data == old(data) || fresh(data))
      ensures ok <==> old(size) + n <= maxSize
      ensures Contents() == if ok then Inserted(old(Contents()), i, Copies(n, old(elt.Read()))) else old(Contents())
      ensures !ok ==> unchanged(this)
    {
      hide Copies, Inserted;
      var p := Passed(elt);
      ghost var value, s := elt.Read(), Contents();
      if i == size {
        InsertedAtEnd(s, Copies(n, value));
        ok := AppendCopies(n, p);
        return;
      }
      ok, p := ReserveForParam(p, n);
      if !ok {
        return;
      }
      if size - i >= n {
        InsertCopiesLong(i, n, p);
      } else {
        InsertCopiesShort(i, n, p);
      }
    }

    /** The first branch of `insert` of a range. */
    method InsertRangeLong(i: nat, src: array<T>, first: nat, last: nat)
      requires Valid() && first <= last <= src.Length && src != data
      requires i + (last - first) <= size && size + (last - first) <= capacity
      modifies this`data, this`capacity, this`copied, this`size, data
      ensures Valid() && data == old(data)
      ensures Contents() == Inserted(old(Contents()), i, old(src[first..last]))
    {
      hide Inserted, Splice, LongTail;
      ghost var b, end, w := data[..], size, src[first..last];
      RaiseLong(i, last - first);
      CopyApart(src, first, last, data, i);
      LongTailInserts(b, end, i, w);
    }

    /** The second branch of `insert` of a range. */
    method InsertRangeShort(i: nat, src: array<T>, first: nat, last: nat)
      requires Valid() && first <= last <= src.Length && src != data
      requires i <= size < i + (last - first) && size + (last - first) <= capacity
      modifies this`size, data
      ensures Valid()
      ensures Contents() == Inserted(old(Contents()), i, old(src[first..last]))
    {
      hide Inserted, Splice, ShortTail;
      ghost var b, w := data[..], src[first..last];
      var end, overwritten := size, size - i;
      RaiseShort(i, last - first);
      SplitRange(src[..], first, first + overwritten, last);
      CopyApart(src, first, first + overwritten, data, i);
      CopyApart(src, first + overwritten, last, data, end);
      ShortTailInserts(b, end, i, w);
    }

    /** `insert` of a range from elsewhere. */
    method InsertRange(i: nat, src: array<T>, first: nat, last: nat) returns (ok: bool)
      requires Valid() && i <= size && first <= last <= src.Length && src != data
      modifies this`data, this`capacity, this`copied, this`size, data
      ensures Valid() && (data == old(data) || fresh(data))
      ensures ok <==> old(size) + (last - first) <= maxSize
      ensures Contents() == if ok then Inserted(old(Contents()), i, old(src[first..last])) else old(Contents())
      ensures !ok ==> unchanged(this)
    {
      hide Inserted;
      ghost var s, w := Contents(), src[first..last];
      if i == size {
        InsertedAtEnd(s, w);
        ok := AppendRange(src, first, last);
        return;
      }
      ok := Reserve(size + (last - first));
      if !ok {
        return;
      }
      if size - i >= last - first {
        InsertRangeLong(i, src, first, last);
      } else {
        InsertRangeShort(i, src, first, last);
      }
    }

    /** `erase` of one element. */
    method Erase(i: nat)
      requires Valid() && i < size
      modifies this`size, data
      ensures Valid() && Contents() == old(Contents()[..i] + Contents()[i + 1..])
    {
      ghost var b, n := data[..], size;
      MoveDown(data, i + 1, size, i);
      ErasedRange(b, n, i, i + 1);
      PopBack();
    }

    /** `erase` of a range. */
    method EraseRange(first: nat, last: nat)
      requires Valid() && first <= last <= size
      modifies this`size, data
      ensures Valid() && Contents() == old(Contents()[..first] + Contents()[last..])
    {
      if first == last {
        ghost var s := Contents();
        assert s == s[..first] + s[first..];
        return;
      }
      ghost var b, n := data[..], size;
      MoveDown(data, last, size, first);
      ErasedRange(b, n, first, last);
      size := first + (size - last);
    }

    /** The part of `swap` that moves elements, once both have room for all of them. */
    method SwapElements(other: SmallVector<T>)
      requires Valid() && other.Valid() && Separate(other) && size <= other.capacity && other.size <= capacity
      modifies this`size, data, other`size, other.data
      ensures Valid() && other.Valid()
      ensures Contents() == old(other.Contents()) && other.Contents() == old(Contents())
    {
      hide Splice, Fronted;
      ghost var x, y, n, m := data[..], other.data[..], size, other.size;
      var shared := if size > other.size then other.size else size;
      SwapShared(data, other.data, shared);
      SwappedRest(x, y, shared, n);
      SwappedRest(y, x, shared, m);
      if size > other.size {
        CopyApart(data, shared, size, other.data, other.size);
        other.size, size := other.size + (size - other.size), shared;
      } else if other.size > size {
        CopyApart(other.data, shared, other.size, data, size);
        size, other.size := size + (other.size - size), shared;
      }
    }

    /** `swap`: two heap blocks change hands, in the other three cases the elements do. */
    method Swap(other: SmallVector<T>)
      requires Valid() && other.Valid() && maxSize == other.maxSize && (other != this ==> Separate(other))
      modifies this, data, other, other.data
      ensures Valid() && other.Valid() && (other != this ==> Separate(other))
      ensures Contents() == old(other.Contents()) && other.Contents() == old(Contents())
      ensures !old(IsSmall()) && !old(other.IsSmall()) ==> data == old(other.data) && other.data == old(data)
    {
      if this == other {
        return;
      }
      if !IsSmall() && !other.IsSmall() {
        data, other.data := other.data, data;
        size, other.size := other.size, size;
        capacity, other.capacity := other.capacity, capacity;
        return;
      }
      var ok := Reserve(other.size);
      assert ok;
      ok := other.Reserve(size);
      assert ok;
      SwapElements(other);
    }

    /** What copy and move assignment do with elements that stay in the other vector's block. */
    method TakeElements(other: SmallVector<T>)
      requires Valid() && other.Valid() && maxSize == other.maxSize && Separate(other)
      modifies this, data
      ensures Valid() && other.Valid() && Separate(other)
      ensures Contents() == other.Contents() == old(other.Contents())
    {
      hide Splice;
      var n, current := other.size, size;
      if current >= n {
        CopiedFront(data[..], other.data[..], 0, n);
        CopyApart(other.data, 0, n, data, 0);
        size := n;
        return;
      }
      if capacity < n {
        size, current := 0, 0;
        var ok := Grow(n);
        assert ok;
        CopiedFront(data[..], other.data[..], 0, n);
      } else if current > 0 {
        CopiedFront(data[..], other.data[..], current, n);
        CopyApart(other.data, 0, current, data, 0);
      } else {
        CopiedFront(data[..], other.data[..], 0, n);
      }
      CopyApart(other.data, current, n, data, current);
      size := n;
    }

    /** Copy assignment. */
    method Assign(other: SmallVector<T>)
      requires Valid() && other.Valid() && maxSize == other.maxSize && (other != this ==> Separate(other))
      modifies this, data
      ensures Valid() && other.Valid() && (other != this ==> Separate(other))
      ensures Contents() == other.Contents() == old(other.Contents())
    {
      if this != other {
        TakeElements(other);
      }
    }

    /** `assignRemote`: takes over a heap block and leaves the other one small, without even its inline room. */
    method AssignRemote(other: SmallVector<T>)
      requires Valid() && other.Valid() && maxSize == other.maxSize && Separate(other) && !other.IsSmall()
      modifies this, other
      ensures Valid() && other.Valid() && Separate(other)
      ensures Contents() == old(other.Contents()) && data == old(other.data)
      ensures other.Contents() == [] && other.IsSmall() && other.capacity == 0
    {
      data, size, capacity := other.data, other.size, other.capacity;
      other.data, other.size, other.capacity := other.inline, 0, 0;
    }

    /** Move assignment of the size-independent part. */
    method AssignMove(other: SmallVector<T>)
      requires Valid() && other.Valid() && maxSize == other.maxSize && (other != this ==> Separate(other))
      modifies this, data, other
      ensures Valid() && other.Valid() && (other != this ==> Separate(other))
      ensures Contents() == old(other.Contents()) && (other != this ==> other.Contents() == [])
      ensures other != this && !old(other.IsSmall()) ==> data == old(other.data)
    {
      if this == other {
        return;
      }
      if !other.IsSmall() {
        AssignRemote(other);
        return;
      }
      TakeElements(other);
      other.size := 0;
    }

    /** Move assignment of vectors of one inline size; without inline room only a heap block can hold elements. */
    method MoveFrom(other: SmallVector<T>)
      requires Valid() && other.Valid() && maxSize == other.maxSize && (other != this ==> Separate(other))
      requires inline.Length == other.inline.Length
      modifies this, data, other
      ensures Valid() && other.Valid() && (other != this ==> Separate(other))
      ensures Contents() == old(other.Contents()) && (other != this ==> other.Contents() == [])
    {
      if inline.Length > 0 {
        AssignMove(other);
      } else if this == other {
      } else if other.size == 0 {
        size := 0;
      } else {
        AssignRemote(other);
      }
    }
  }

  lemma ErasedRange<T>(b: seq<T>, size: nat, first: nat, last: nat)
    requires first <= last <= size <= |b|
    ensures Shifted(b, first, last, size)[..first + (size - last)] == b[..size][..first] + b[..size][last..]
  {
  }

  ghost predicate Tallies<T(0)>(v: SmallVector<T>, peak: nat, t: Tally)
    reads v
  {
    t == Tally(v.size, v.capacity, v.copied, peak)
  }

  /** One push or pop, in the vector and in the tally. */
  method PushOrPop<T(0)>(v: SmallVector<T>, op: Op<T>, ghost peak: nat) returns (ghost peak': nat)
    requires v.Valid()
    modifies v, v.data
    ensures v.Valid() && (v.data == old(v.data) || fresh(v.data))
    ensures v.Contents() == StackStep(old(v.Contents()), op, v.maxSize)
    ensures Tallies(v, peak', Counted(Tally(old(v.size), old(v.capacity), old(v.copied), peak), op, v.maxSize))
  {
    peak' := peak;
    match op {
      case Push(x) =>
        var ok := v.PushBack(Loose(x));
        peak' := if ok && peak < v.size then v.size else peak;
      case Pop =>
        if v.size > 0 {
          v.PopBack();
        }
    }
  }

  /** A run of pushes and pops on a fresh vector, with what it holds and what growing it cost. */
  method PushAndPop<T(0)>(inlineSize: nat, maxSize: nat, ops: seq<Op<T>>)
    returns (v: SmallVector<T>, ghost peak: nat)
    requires inlineSize <= maxSize
    ensures v.Valid() && v.Contents() == Stacked([], ops, maxSize)
    ensures v.copied <= 2 * peak && Peaks(ops, maxSize, peak)
    ensures Tallies(v, peak, CountedAll(Tally(0, inlineSize, 0, 0), ops, maxSize))
  {
    hide StackStep, Counted;
    v := new SmallVector<T>(inlineSize, maxSize, true);
    peak := 0;
    for i := 0 to |ops|
      invariant v.Valid() && fresh(v) && fresh(v.data) && v.maxSize == maxSize
      invariant v.Contents() == Stacked([], ops[..i], maxSize)
      invariant Tallies(v, peak, CountedAll(Tally(0, inlineSize, 0, 0), ops[..i], maxSize))
    {
      assert ops[..i + 1][..i] == ops[..i];
      peak := PushOrPop(v, ops[i], peak);
    }
    assert ops[..|ops|] == ops;
    PeakReached(inlineSize, ops, maxSize);
    CopiedTwicePeak(inlineSize, ops, maxSize);
  }

  lemma AppendedTail<T>(b: seq<T>, size: nat, n: nat)
    requires n <= size && size + n <= |b|
    ensures Splice(b, size, b[size - n..size]) == Shifted(b, size, size - n, size)
  {
  }

  lemma MovedTail<T>(b: seq<T>, size: nat, i: nat, n: nat)
    requires i <= size < i + n && size + n <= |b|
    ensures Splice(b, size + n - (size - i), b[i..size]) == ShortTail(b, size, i, n)
  {
  }

  lemma InsertedAtEnd<T>(s: seq<T>, w: seq<T>)
    ensures Inserted(s, |s|, w) == s + w
  {
  }

  lemma SplitRange<T>(s: seq<T>, first: nat, middle: nat, last: nat)
    requires first <= middle <= last <= |s|
    ensures s[first..last][..middle - first] == s[first..middle]
    ensures s[first..last][middle - first..] == s[middle..last]
  {
  }

  lemma SplitCopies<T>(n: nat, k: nat, x: T)
    requires k <= n
    ensures |Copies(n, x)| == n && Copies(n, x)[..k] == Copies(k, x) && Copies(n, x)[k..] == Copies(n - k, x)
  {
  }

  lemma RaisedOne<T>(b: seq<T>, size: nat, i: nat, b': seq<T>)
    requires i < size < |b| && b' == b[size := b[size - 1]]
    ensures Shifted(b', i + 1, i, size - 1) == LongTail(b, size, i, 1)
  {
    assert b' == Shifted(b, size, size - 1, size);
  }

  lemma SpliceOne<T>(b: seq<T>, i: nat, x: T)
    requires i < |b|
    ensures b[i := x] == Splice(b, i, [x])
  {
  }
}
