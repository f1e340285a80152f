// The circular buffers of the firmware: what a ring that was written `history`
// holds.  The n-th value ever written goes to cell n % size.
module RingBuffer {
  import opened MassMath

  // The values still in a ring of `size` cells.
  function Recent<T>(history: seq<T>, size: nat): (r: seq<T>)
    ensures |r| == if |history| < size then |history| else size
    ensures forall i :: 0 <= i < |r| ==> r[i] == history[|history| - |r| + i]
  {
    if |history| < size then history else history[|history| - size..]
  }

  ghost predicate Holds<T>(cells: seq<T>, history: seq<T>, size: nat) {
    && 0 < size <= |cells|
    && forall j :: 0 <= j < |history| && |history| - size <= j ==> cells[j % size] == history[j]
  }

  lemma NothingWritten<T>(cells: seq<T>, size: nat)
    requires 0 < size <= |cells|
    ensures Holds(cells, [], size)
  {}

  lemma EmptyRing<T>(cells: seq<T>, size: nat)
    requires 0 < size <= |cells|
    ensures Holds(cells, [], size) && Recent<T>([], size) == [] && 0 % size == 0
  {}

  lemma OtherCell(j: int, n: int, size: nat)
    requires 0 < n - j < size
    ensures j % size != n % size
  {
    var q: int, r: int := j / size, j % size;
    assert j == q * size + r;
    if r + (n - j) < size {
      DivisionIs(n, size, q, r + (n - j));
    } else {
      assert (q + 1) * size == q * size + size;
      DivisionIs(n, size, q + 1, r + (n - j) - size);
    }
  }

  // One more value, in the cell after the last.
  lemma Written<T>(cells: seq<T>, history: seq<T>, size: nat, value: T)
    requires Holds(cells, history, size)
    ensures Holds(cells[|history| % size := value], history + [value], size)
  {
    var n := |history|;
    forall j | 0 <= j < n + 1 && n + 1 - size <= j
      ensures cells[n % size := value][j % size] == (history + [value])[j]
    {
      if j < n { OtherCell(j, n, size); }
    }
  }

  lemma Advance(n: nat, size: nat)
    requires size > 0
    ensures (n % size + 1) % size == (n + 1) % size
  {
    var q: int, r: int := n / size, n % size;
    assert n == q * size + r;
    if r + 1 < size {
      DivisionIs(n + 1, size, q, r + 1);
      DivisionIs(r + 1, size, 0, r + 1);
    } else {
      assert (q + 1) * size == q * size + size;
      DivisionIs(n + 1, size, q + 1, 0);
      DivisionIs(r + 1, size, 1, 0);
    }
  }

  // The value in a cell, by its place in the history.
  function Latest(n: nat, size: nat, cell: nat): (j: int)
    requires cell < size && (n < size ==> cell < n)
    ensures 0 <= j < n && n - size <= j && j % size == cell
  {
    var q: int, back: int := (n - 1 - cell) / size, (n - 1 - cell) % size;
    LatestCell(n, size, cell, q, back);
    n - 1 - back
  }

  lemma LatestCell(n: nat, size: nat, cell: nat, q: int, back: int)
    requires cell < size && (n < size ==> cell < n) && 0 <= back < size && n - 1 - cell == q * size + back
    ensures n - 1 - back >= 0 && (n - 1 - back) % size == cell
  {
    MulLe(size, if q < 0 then q else 0, if q < 0 then -1 else q);
    DivisionIs(n - 1 - back, size, q, cell);
  }

  lemma CellIsRecent<T>(cells: seq<T>, history: seq<T>, size: nat, i: nat)
    requires Holds(cells, history, size) && i < |Recent(history, size)|
    ensures cells[i] in Recent(history, size)
  {
    var recent, n := Recent(history, size), |history|;
    var j := Latest(n, size, i);
    assert history[j] == recent[j - (n - |recent|)];
  }

  lemma RecentIsInCell<T>(cells: seq<T>, history: seq<T>, size: nat, j: nat)
    requires Holds(cells, history, size) && j < |history| && |history| - size <= j
    ensures history[j] in cells[..|Recent(history, size)|]
  {
    var count := |Recent(history, size)|;
    if |history| < size { DivisionIs(j, size, 0, j); }
    assert cells[..count][j % size] == history[j];
  }

  // A full or partly filled ring holds exactly the recent values, in some order.
  lemma HoldsRecent<T>(cells: seq<T>, history: seq<T>, size: nat)
    requires Holds(cells, history, size)
    ensures forall i :: 0 <= i < |Recent(history, size)| ==> cells[i] in Recent(history, size)
  {
    var recent := Recent(history, size);
    assert size <= |cells|;
    hide Holds, Recent;
    forall i | 0 <= i < |recent| ensures cells[i] in recent {
      CellIsRecent(cells, history, size, i);
    }
  }

  lemma RecentHeld<T>(cells: seq<T>, history: seq<T>, size: nat)
    requires Holds(cells, history, size)
    ensures forall k :: 0 <= k < |Recent(history, size)| ==>
              Recent(history, size)[k] in cells[..|Recent(history, size)|]
  {
    assert size <= |cells| && |Recent(history, size)| <= |history|;
    hide *;
    var recent, n := Recent(history, size), |history|;
    forall k | 0 <= k < |recent| ensures recent[k] in cells[..|recent|] {
      RecentIsInCell(cells, history, size, n - |recent| + k);
    }
  }

  // A full ring is the recent values turned by the write position.
  lemma FullRing<T>(cells: seq<T>, history: seq<T>, size: nat)
    requires Holds(cells, history, size) && |cells| == size <= |history|
    ensures |history| % size < size && Recent(history, size) == cells[|history| % size..] + cells[..|history| % size]
    ensures multiset(cells) == multiset(Recent(history, size))
  {
    var head, recent := |history| % size, Recent(history, size);
    forall i | 0 <= i < size ensures recent[i] == (cells[head..] + cells[..head])[i] {
      TurnedCell(cells, history, size, i);
    }
    assert recent == cells[head..] + cells[..head];
    assert cells == cells[..head] + cells[head..];
  }

  lemma TurnedCell<T>(cells: seq<T>, history: seq<T>, size: nat, i: nat)
    requires Holds(cells, history, size) && |cells| == size <= |history| && i < size
    ensures var head, n := |history| % size, |history|;
            history[n - size + i] == if head + i < size then cells[head + i] else cells[head + i - size]
  {
    var head, n := |history| % size, |history|;
    var q: int := n / size;
    assert n == q * size + head && (q - 1) * size == q * size - size;
    if head + i < size {
      DivisionIs(n - size + i, size, q - 1, head + i);
    } else {
      DivisionIs(n - size + i, size, q, head + i - size);
    }
    assert cells[(n - size + i) % size] == history[n - size + i];
  }
}
