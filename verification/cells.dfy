/** The byte-layout half of the typed parameter writers: how each `SetD3D11ShaderParameter`
    specialisation changes one CPU-side constant-buffer mirror and its dirty flag.
    A mirror is a sequence of 32-bit cells; position `at` is the byte offset divided by 4. */
module Cells {
  import opened Common

  /** One constant-buffer mirror (`mem_cbufs_[st][c]`) with its dirty flag (`dirty_[st][c]`). */
  datatype Mirror = Mirror(cells: seq<Word>, dirty: bool)

  /** `s` with `ws` copied over the cells starting at `at` (a `memcpy`). */
  function Splice(s: seq<Word>, at: nat, ws: seq<Word>): (r: seq<Word>)
    requires at + |ws| <= |s|
    ensures |r| == |s|
    ensures forall j :: 0 <= j < |ws| ==> r[at + j] == ws[j]
    ensures forall j :: 0 <= j < |s| && (j < at || at + |ws| <= j) ==> r[j] == s[j]
  {
    s[..at] + ws + s[at + |ws|..]
  }

  lemma SpliceSlice(s: seq<Word>, at: nat, ws: seq<Word>)
    requires at + |ws| <= |s|
    ensures Splice(s, at, ws)[at..at + |ws|] == ws
  {
  }

  // ---------------------------------------------------------------------------------------
  // Scalar, vector and matrix writers: compare, then write and mark dirty only on a change.

  /** Compare the cells at `at` with `ws`; when they differ, overwrite them and set the flag. */
  function StoreIfChanged(m: Mirror, at: nat, ws: seq<Word>): (r: Mirror)
    requires at + |ws| <= |m.cells|
    ensures |r.cells| == |m.cells|
    ensures r.cells[at..at + |ws|] == ws
    ensures forall j :: 0 <= j < |m.cells| && (j < at || at + |ws| <= j) ==> r.cells[j] == m.cells[j]
    ensures r.dirty == (m.dirty || m.cells[at..at + |ws|] != ws)
    ensures !r.dirty ==> r == m
  {
    if m.cells[at..at + |ws|] != ws then
      SpliceSlice(m.cells, at, ws);
      Mirror(Splice(m.cells, at, ws), true)
    else
      m
  }

  /** A second application of the same value changes neither the cells nor the flag. */
  lemma StoreIfChangedIdempotent(m: Mirror, at: nat, ws: seq<Word>)
    requires at + |ws| <= |m.cells|
    ensures StoreIfChanged(StoreIfChanged(m, at, ws), at, ws) == StoreIfChanged(m, at, ws)
  {
  }

  /** Applying the same value twice with an upload in between uploads at most once:
      after the flag is cleared, the second application leaves it clear. */
  lemma StoreIfChangedAtMostOneUpload(m: Mirror, at: nat, ws: seq<Word>)
    requires at + |ws| <= |m.cells|
    ensures var uploaded := Mirror(StoreIfChanged(m, at, ws).cells, false);
            StoreIfChanged(uploaded, at, ws) == uploaded
  {
  }

  /** `MathLib::transpose` of a 4x4 matrix held as 16 cells in row-major order. */
  function Transpose(m: seq<Word>): (t: seq<Word>)
    requires |m| == 16
    ensures |t| == 16
    ensures forall i :: 0 <= i < 16 ==> t[i] == m[4 * (i % 4) + i / 4]
  {
    seq(16, i requires 0 <= i < 16 => m[4 * (i % 4) + i / 4])
  }

  /** Transposition is an involution, so no information is lost in the mirror. */
  lemma TransposeInvolution(m: seq<Word>)
    requires |m| == 16
    ensures Transpose(Transpose(m)) == m
  {
    var t := Transpose(m);
    var tt := Transpose(t);
    forall i | 0 <= i < 16
      ensures tt[i] == m[i]
    {
      var j := 4 * (i % 4) + i / 4;
      assert 0 <= j < 16;
      assert tt[i] == t[j];
      assert j % 4 == i / 4 && j / 4 == i % 4;
      assert t[j] == m[4 * (j % 4) + j / 4];
    }
  }

  /** The matrix writer: the transposed matrix's first `rows` rows (16 bytes each) are
      compared with, and copied over, the cells at `at`. */
  function MatrixStore(m: Mirror, at: nat, rows: nat, mat: seq<Word>): (r: Mirror)
    requires |mat| == 16 && rows <= 4 && at + 4 * rows <= |m.cells|
    ensures |r.cells| == |m.cells|
  {
    StoreIfChanged(m, at, Transpose(mat)[..4 * rows])
  }

  /** A matrix writer with fewer than four rows neither compares nor writes past them;
      the written rows are the transposed matrix's; the flag is set exactly on a difference. */
  lemma MatrixStoreRows(m: Mirror, at: nat, rows: nat, mat: seq<Word>)
    requires |mat| == 16 && rows <= 4 && at + 4 * rows <= |m.cells|
    ensures var r := MatrixStore(m, at, rows, mat);
      && (forall j :: 0 <= j < |m.cells| && (j < at || at + 4 * rows <= j) ==> r.cells[j] == m.cells[j])
      && (forall i :: 0 <= i < 4 * rows ==> r.cells[at + i] == mat[4 * (i % 4) + i / 4])
      && r.dirty == (m.dirty || m.cells[at..at + 4 * rows] != Transpose(mat)[..4 * rows])
  {
    var r := MatrixStore(m, at, rows, mat);
    var t := Transpose(mat)[..4 * rows];
    assert r.cells[at..at + 4 * rows] == t;
    forall i | 0 <= i < 4 * rows
      ensures r.cells[at + i] == mat[4 * (i % 4) + i / 4]
    {
      assert r.cells[at + i] == r.cells[at..at + 4 * rows][i];
    }
  }

  // ---------------------------------------------------------------------------------------
  // Scalar arrays: element k lives in the first cell of the k-th 16-byte register.

  /** The scalar-array loop over `cs`: element k is compared with the cell at `at + 4k`
      and, when different, written there with the flag set. */
  function ScalarArrayStore(m: Mirror, at: nat, cs: seq<Word>): (r: Mirror)
    requires |cs| == 0 || at + 4 * (|cs| - 1) < |m.cells|
    ensures |r.cells| == |m.cells|
    decreases |cs|
  {
    if cs == [] then m
    else
      var step := if m.cells[at] != cs[0] then Mirror(m.cells[at := cs[0]], true) else m;
      ScalarArrayStore(step, at + 4, cs[1..])
  }

  /** Whether cell `j` is one of the cells the scalar-array loop over `n` elements visits. */
  predicate ArrayCell(at: nat, n: nat, j: nat) {
    at <= j && (j - at) % 4 == 0 && (j - at) / 4 < n
  }

  /** Cells the loop does not visit keep their value. */
  lemma {:induction false} ScalarArrayStoreElsewhere(m: Mirror, at: nat, cs: seq<Word>, j: nat)
    requires |cs| == 0 || at + 4 * (|cs| - 1) < |m.cells|
    requires j < |m.cells| && !ArrayCell(at, |cs|, j)
    ensures ScalarArrayStore(m, at, cs).cells[j] == m.cells[j]
    decreases |cs|
  {
    if cs != [] {
      var step := if m.cells[at] != cs[0] then Mirror(m.cells[at := cs[0]], true) else m;
      assert j != at;
      assert !ArrayCell(at + 4, |cs| - 1, j);
      ScalarArrayStoreElsewhere(step, at + 4, cs[1..], j);
    }
  }

  /** Element k ends up in the cell at `at + 4k`. */
  lemma {:induction false} ScalarArrayStoreAt(m: Mirror, at: nat, cs: seq<Word>, k: nat)
    requires |cs| == 0 || at + 4 * (|cs| - 1) < |m.cells|
    requires k < |cs|
    ensures ScalarArrayStore(m, at, cs).cells[at + 4 * k] == cs[k]
    decreases |cs|
  {
    var step := if m.cells[at] != cs[0] then Mirror(m.cells[at := cs[0]], true) else m;
    if k == 0 {
      assert !ArrayCell(at + 4, |cs| - 1, at);
      ScalarArrayStoreElsewhere(step, at + 4, cs[1..], at);
    } else {
      ScalarArrayStoreAt(step, at + 4, cs[1..], k - 1);
    }
  }

  /** The flag ends up set exactly when it was already set or some cell changed. */
  lemma {:induction false} ScalarArrayStoreDirty(m: Mirror, at: nat, cs: seq<Word>)
    requires |cs| == 0 || at + 4 * (|cs| - 1) < |m.cells|
    ensures var r := ScalarArrayStore(m, at, cs); r.dirty == (m.dirty || r.cells != m.cells)
    decreases |cs|
  {
    if cs != [] {
      var step := if m.cells[at] != cs[0] then Mirror(m.cells[at := cs[0]], true) else m;
      ScalarArrayStoreDirty(step, at + 4, cs[1..]);
      if m.cells[at] != cs[0] {
        ScalarArrayStoreAt(m, at, cs, 0);
      }
    }
  }

  /** The flag is set exactly when it was already set or some element differed from
      the cell it is compared with. */
  lemma {:induction false} ScalarArrayStoreDirtyIffDiffers(m: Mirror, at: nat, cs: seq<Word>)
    requires |cs| == 0 || at + 4 * (|cs| - 1) < |m.cells|
    ensures ScalarArrayStore(m, at, cs).dirty
            == (m.dirty || exists k :: 0 <= k < |cs| && m.cells[at + 4 * k] != cs[k])
    decreases |cs|
  {
    if cs != [] {
      var rest := cs[1..];
      if m.cells[at] != cs[0] {
        ScalarArrayStoreDirtyIffDiffers(Mirror(m.cells[at := cs[0]], true), at + 4, rest);
        assert m.cells[at + 4 * 0] != cs[0];
      } else {
        ScalarArrayStoreDirtyIffDiffers(m, at + 4, rest);
        DiffersShift(m.cells, at, cs);
      }
    }
  }

  /** When the first element matches, a difference is one among the remaining elements. */
  lemma DiffersShift(cells: seq<Word>, at: nat, cs: seq<Word>)
    requires cs != [] && at + 4 * (|cs| - 1) < |cells| && cells[at] == cs[0]
    ensures (exists k :: 0 <= k < |cs| && cells[at + 4 * k] != cs[k])
            == (exists k :: 0 <= k < |cs| - 1 && cells[at + 4 + 4 * k] != cs[1..][k])
  {
    if exists k :: 0 <= k < |cs| && cells[at + 4 * k] != cs[k] {
      var k :| 0 <= k < |cs| && cells[at + 4 * k] != cs[k];
      assert cells[at + 4 + 4 * (k - 1)] != cs[1..][k - 1];
    }
    if exists k :: 0 <= k < |cs| - 1 && cells[at + 4 + 4 * k] != cs[1..][k] {
      var k :| 0 <= k < |cs| - 1 && cells[at + 4 + 4 * k] != cs[1..][k];
      assert cells[at + 4 * (k + 1)] != cs[k + 1];
    }
  }

  /** A clean result means the loop changed nothing. */
  lemma ScalarArrayStoreCleanUnchanged(m: Mirror, at: nat, cs: seq<Word>)
    requires |cs| == 0 || at + 4 * (|cs| - 1) < |m.cells|
    ensures var r := ScalarArrayStore(m, at, cs); !r.dirty ==> r == m
  {
    ScalarArrayStoreDirty(m, at, cs);
  }

  // ---------------------------------------------------------------------------------------
  // Arrays of 2-, 3- and 4-component vectors: each element is padded to a full register.

  /** `Vector_T<T, 4>(x, y, 0, 0)` and `(x, y, z, 0)`: a vector padded with zeros to 4 cells. */
  function Pad4(v: seq<Word>): (p: seq<Word>)
    requires |v| <= 4
    ensures |p| == 4
    ensures p[..|v|] == v
    ensures forall i :: |v| <= i < 4 ==> p[i] == 0
  {
    v + seq(4 - |v|, _ => 0)
  }

  /** The packed array `v4` of padded elements, in order. */
  function Packed(vs: seq<seq<Word>>): (p: seq<Word>)
    requires forall k :: 0 <= k < |vs| ==> |vs[k]| <= 4
    ensures |p| == 4 * |vs|
  {
    if vs == [] then [] else Packed(vs[..|vs| - 1]) + Pad4(vs[|vs| - 1])
  }

  /** Element k of the packed array occupies cells `4k .. 4k+3`. */
  lemma {:induction false} PackedAt(vs: seq<seq<Word>>, k: nat, i: nat)
    requires forall k :: 0 <= k < |vs| ==> |vs[k]| <= 4
    requires k < |vs| && i < 4
    ensures Packed(vs)[4 * k + i] == Pad4(vs[k])[i]
    decreases |vs|
  {
    var init := vs[..|vs| - 1];
    if k < |vs| - 1 {
      PackedAt(init, k, i);
      assert Packed(vs)[4 * k + i] == Packed(init)[4 * k + i];
    }
  }

  lemma {:induction false} PackedPrefix(vs: seq<seq<Word>>, n: nat)
    requires forall k :: 0 <= k < |vs| ==> |vs[k]| <= 4
    requires n <= |vs|
    ensures Packed(vs[..n]) == Packed(vs)[..4 * n]
    decreases |vs|
  {
    if n < |vs| {
      PackedPrefix(vs[..|vs| - 1], n);
      assert vs[..|vs| - 1][..n] == vs[..n];
    } else {
      assert vs[..n] == vs;
    }
  }

  /** The vec2/vec3/vec4-array writer: the first `min(elements, |vs|)` padded elements are
      copied to `at` (`min(size_, v4.size() * 16)` bytes) and the flag is set in every case,
      including an empty input. */
  function VectorArrayStore(m: Mirror, at: nat, elements: nat, vs: seq<seq<Word>>): (r: Mirror)
    requires forall k :: 0 <= k < |vs| ==> |vs[k]| <= 4
    requires at + 4 * elements <= |m.cells|
    ensures |r.cells| == |m.cells| && r.dirty
  {
    var n := Min(elements, |vs|);
    Mirror(Splice(m.cells, at, Packed(vs[..n])), true)
  }

  /** Layout of the vector-array writer: component i of element k (k below the copied
      count) is at `at + 4k + i`, padding components are zero whatever the cells held
      before, and cells outside the copied registers are untouched. */
  lemma VectorArrayStoreLayout(m: Mirror, at: nat, elements: nat, vs: seq<seq<Word>>, k: nat, i: nat)
    requires forall k :: 0 <= k < |vs| ==> |vs[k]| <= 4
    requires at + 4 * elements <= |m.cells|
    requires k < Min(elements, |vs|) && i < 4
    ensures VectorArrayStore(m, at, elements, vs).cells[at + 4 * k + i]
            == if i < |vs[k]| then vs[k][i] else 0
  {
    var n := Min(elements, |vs|);
    PackedAt(vs[..n], k, i);
    assert vs[..n][k] == vs[k];
    assert Pad4(vs[k])[..|vs[k]|] == vs[k];
    if i < |vs[k]| {
      assert Pad4(vs[k])[i] == Pad4(vs[k])[..|vs[k]|][i];
    }
  }

  lemma VectorArrayStoreElsewhere(m: Mirror, at: nat, elements: nat, vs: seq<seq<Word>>, j: nat)
    requires forall k :: 0 <= k < |vs| ==> |vs[k]| <= 4
    requires at + 4 * elements <= |m.cells|
    requires j < |m.cells| && (j < at || at + 4 * Min(elements, |vs|) <= j)
    ensures VectorArrayStore(m, at, elements, vs).cells[j] == m.cells[j]
  {
  }

  // ---------------------------------------------------------------------------------------
  // Matrix arrays: each transposed matrix is written `rows` registers after the previous.

  /** The matrix-array loop: `ms[0]` transposed is copied (first `rows` rows) to `at`, the
      next one `rows` registers further, and so on. */
  function MatrixArrayStore(cells: seq<Word>, at: nat, rows: nat, ms: seq<seq<Word>>): (r: seq<Word>)
    requires rows <= 4 && forall k :: 0 <= k < |ms| ==> |ms[k]| == 16
    requires at + 4 * rows * |ms| <= |cells|
    ensures |r| == |cells|
    decreases |ms|
  {
    if ms == [] then cells
    else
      assert 4 * rows * |ms| == 4 * rows + 4 * rows * (|ms| - 1);
      MatrixArrayStore(Splice(cells, at, Transpose(ms[0])[..4 * rows]), at + 4 * rows, rows, ms[1..])
  }

  /** Cells before `at` and from `at + 4·rows·|ms|` on keep their value. */
  lemma {:induction false} MatrixArrayStoreElsewhere(cells: seq<Word>, at: nat, rows: nat, ms: seq<seq<Word>>, j: nat)
    requires rows <= 4 && forall k :: 0 <= k < |ms| ==> |ms[k]| == 16
    requires at + 4 * rows * |ms| <= |cells|
    requires j < |cells| && (j < at || at + 4 * rows * |ms| <= j)
    ensures MatrixArrayStore(cells, at, rows, ms)[j] == cells[j]
    decreases |ms|
  {
    if ms != [] {
      assert 4 * rows * |ms| == 4 * rows + 4 * rows * (|ms| - 1);
      MatrixArrayStoreElsewhere(Splice(cells, at, Transpose(ms[0])[..4 * rows]), at + 4 * rows, rows, ms[1..], j);
    }
  }

  lemma StrideBound(s: nat, k: nat, n: nat, i: nat)
    requires k < n && i < s
    ensures s * k + i < s * n
  {
    assert s * k + s == s * (k + 1);
    assert s * (k + 1) <= s * n;
  }

  /** Matrix k's transposed rows occupy the `rows` registers starting at `at + 4·rows·k`. */
  lemma {:induction false} MatrixArrayStoreAt(cells: seq<Word>, at: nat, rows: nat, ms: seq<seq<Word>>, k: nat, i: nat)
    requires rows <= 4 && forall k :: 0 <= k < |ms| ==> |ms[k]| == 16
    requires at + 4 * rows * |ms| <= |cells|
    requires k < |ms| && i < 4 * rows
    ensures at + 4 * rows * k + i < |cells|
    ensures MatrixArrayStore(cells, at, rows, ms)[at + 4 * rows * k + i] == Transpose(ms[k])[i]
    decreases |ms|
  {
    var s := 4 * rows;
    StrideBound(s, k, |ms|, i);
    assert s * |ms| == s + s * (|ms| - 1);
    var next := Splice(cells, at, Transpose(ms[0])[..s]);
    if k == 0 {
      assert next[at + i] == Transpose(ms[0])[..s][i];
      MatrixArrayStoreElsewhere(next, at + s, rows, ms[1..], at + i);
    } else {
      assert s * k == s + s * (k - 1);
      MatrixArrayStoreAt(next, at + s, rows, ms[1..], k - 1, i);
    }
  }
}
