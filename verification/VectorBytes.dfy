/** The MLlib byte formats (mllib/_common.py): dense and sparse vectors and dense matrices written
    into a byte array through typed views, and read back with length and magic checks. The byte
    order is the machine's, and the 8-byte form of a double is an abstract bijection. */
module VectorBytes {
  import opened Seqs
  import opened Bytes
  import SparseVectors

  type Int32 = x: int | IsInt32(x)

  /** Values of a fixed width in bytes. */
  datatype Fixed<!T> = Fixed(width: nat, enc: T -> seq<Byte>, dec: seq<Byte> -> T)

  ghost predicate Bijective<T(!new)>(c: Fixed<T>)
  {
    && c.width > 0
    && (forall x :: |c.enc(x)| == c.width && c.dec(c.enc(x)) == x)
    && (forall b :: |b| == c.width ==> c.enc(c.dec(b)) == b)
  }

  function Ints(bigEndian: bool): Fixed<Int32>
  {
    Fixed<Int32>.Fixed(4, x => PackInt(x, bigEndian), b => if |b| == 4 then UnpackInt(b, bigEndian) else 0)
  }

  lemma IntsBijective(bigEndian: bool)
    ensures Bijective(Ints(bigEndian))
  {
    forall x: Int32
      ensures UnpackInt(PackInt(x, bigEndian), bigEndian) == x
    {
      UnpackPack(x, bigEndian);
    }
    forall b: seq<Byte> | |b| == 4
      ensures PackInt(UnpackInt(b, bigEndian), bigEndian) == b
    {
      PackUnpack(b, bigEndian);
    }
  }

  // ---------- Arrays of fixed-width values ----------

  function ArrayBytes<T>(c: Fixed<T>, xs: seq<T>): seq<Byte>
  {
    if xs == [] then [] else c.enc(xs[0]) + ArrayBytes(c, xs[1..])
  }

  /** The array view of b; b holds a whole number of values. */
  function ArrayOf<T>(c: Fixed<T>, b: seq<Byte>): seq<T>
    requires c.width > 0
    decreases |b|
  {
    if |b| < c.width then [] else [c.dec(b[..c.width])] + ArrayOf(c, b[c.width..])
  }

  lemma {:induction false} ArrayBytesLength<T(!new)>(c: Fixed<T>, xs: seq<T>)
    requires Bijective(c)
    ensures |ArrayBytes(c, xs)| == |xs| * c.width
  {
    if xs != [] {
      ArrayBytesLength(c, xs[1..]);
      assert |xs| * c.width == c.width + (|xs| - 1) * c.width;
    }
  }

  lemma {:induction false} ReadWrite<T(!new)>(c: Fixed<T>, xs: seq<T>)
    requires Bijective(c)
    ensures ArrayOf(c, ArrayBytes(c, xs)) == xs
  {
    if xs != [] {
      var b := ArrayBytes(c, xs);
      ReadWrite(c, xs[1..]);
      assert b[..c.width] == c.enc(xs[0]) && b[c.width..] == ArrayBytes(c, xs[1..]);
    }
  }

  /** The bytes of n values. */
  function ByteCount(n: nat, width: nat): nat { n * width }

  lemma OneMoreWidth(n: nat, width: nat)
    ensures if n == 0 then ByteCount(n, width) == 0 else ByteCount(n, width) == width + ByteCount(n - 1, width)
  {
  }

  /** Reading takes one value off the front. */
  lemma ArrayOfCons<T(!new)>(c: Fixed<T>, b: seq<Byte>)
    requires Bijective(c) && |b| >= c.width
    ensures c.width > 0 && c.enc(c.dec(b[..c.width])) == b[..c.width]
    ensures ArrayOf(c, b) == [c.dec(b[..c.width])] + ArrayOf(c, b[c.width..])
  {
  }

  lemma ArrayBytesCons<T>(c: Fixed<T>, x: T, xs: seq<T>)
    ensures ArrayBytes(c, [x] + xs) == c.enc(x) + ArrayBytes(c, xs)
  {
    assert ([x] + xs)[1..] == xs;
  }

  lemma {:induction false} WriteRead<T(!new)>(c: Fixed<T>, b: seq<Byte>, n: nat)
    requires Bijective(c) && |b| == ByteCount(n, c.width)
    ensures |ArrayOf(c, b)| == n
    ensures ArrayBytes(c, ArrayOf(c, b)) == b
    decreases n
  {
    assert c.width > 0;
    OneMoreWidth(n, c.width);
    hide ByteCount;
    if n > 0 {
      hide Bijective, ArrayOf, ArrayBytes;
      WriteRead(c, b[c.width..], n - 1);
      ArrayOfCons(c, b);
      ArrayBytesCons(c, c.dec(b[..c.width]), ArrayOf(c, b[c.width..]));
      assert b == b[..c.width] + b[c.width..];
    }
  }

  // ---------- Formats ----------

  const DENSE_VECTOR_MAGIC: Byte := 1
  const SPARSE_VECTOR_MAGIC: Byte := 2
  const DENSE_MATRIX_MAGIC: Byte := 3

  /** Codecs of the machine: its byte order, and its doubles. */
  datatype Machine<!F(!new)> = Machine(bigEndian: bool, doubles: Fixed<F>)
  {
    ghost predicate Valid()
    {
      Bijective(doubles) && doubles.width == 8
    }
  }

  datatype Vector<F> = Dense(values: seq<F>) | Sparse(size: int, indices: seq<Int32>, values: seq<F>)

  /** Vectors whose header fields fit their 32 bits, with the SparseVector invariant. */
  ghost predicate VectorOk<F>(v: Vector<F>)
  {
    match v
    case Dense(values) => |values| < INT_LIMIT
    case Sparse(size, indices, values) =>
      IsInt32(size) && |indices| == |values| < INT_LIMIT && SparseVectors.Increasing(indices)
  }

  function DenseBytes<F(!new)>(m: Machine<F>, values: seq<F>): seq<Byte>
    requires |values| < INT_LIMIT
  {
    [DENSE_VECTOR_MAGIC] + PackInt(|values|, m.bigEndian) + ArrayBytes(m.doubles, values)
  }

  function SparseBytes<F(!new)>(m: Machine<F>, size: int, indices: seq<Int32>, values: seq<F>): seq<Byte>
    requires IsInt32(size) && |indices| < INT_LIMIT
  {
    [SPARSE_VECTOR_MAGIC] + PackInt(size, m.bigEndian) + PackInt(|indices|, m.bigEndian)
      + ArrayBytes(Ints(m.bigEndian), indices) + ArrayBytes(m.doubles, values)
  }

  ghost function VectorToBytes<F(!new)>(m: Machine<F>, v: Vector<F>): seq<Byte>
    requires VectorOk(v)
  {
    match v
    case Dense(values) => DenseBytes(m, values)
    case Sparse(size, indices, values) => SparseBytes(m, size, indices, values)
  }

  /** Row-major contents. */
  datatype Matrix<F> = Matrix(rows: int, cols: int, data: seq<F>)

  ghost predicate MatrixOk<F>(x: Matrix<F>)
  {
    0 <= x.rows < INT_LIMIT && 0 <= x.cols < INT_LIMIT && |x.data| == x.rows * x.cols
  }

  function MatrixBytes<F(!new)>(m: Machine<F>, x: Matrix<F>): seq<Byte>
    requires IsInt32(x.rows) && IsInt32(x.cols)
  {
    [DENSE_MATRIX_MAGIC] + PackInt(x.rows, m.bigEndian) + PackInt(x.cols, m.bigEndian) + ArrayBytes(m.doubles, x.data)
  }

  datatype Error = TooShort | WrongMagic | WrongLength | NotSorted | BufferTooSmall | NegativeDimension

  /** `_deserialize_double_vector` */
  function DeserializeVector<F(!new)>(m: Machine<F>, ba: seq<Byte>): Result<Vector<F>, Error>
    requires m.doubles.width > 0
  {
    if |ba| < 5 then Err(TooShort)
    else if ba[0] == DENSE_VECTOR_MAGIC then DeserializeDense(m, ba)
    else if ba[0] == SPARSE_VECTOR_MAGIC then DeserializeSparse(m, ba)
    else Err(WrongMagic)
  }

  function DeserializeDense<F(!new)>(m: Machine<F>, ba: seq<Byte>): Result<Vector<F>, Error>
    requires m.doubles.width > 0 && |ba| >= 5
  {
    var length := UnpackInt(ba[1..5], m.bigEndian);
    if |ba| != 8 * length + 5 then Err(WrongLength)
    else Ok(Dense(ArrayOf(m.doubles, ba[5..])))
  }

  function DeserializeSparse<F(!new)>(m: Machine<F>, ba: seq<Byte>): Result<Vector<F>, Error>
    requires m.doubles.width > 0
  {
    if |ba| < 9 then Err(TooShort)
    else
      var size := UnpackInt(ba[1..5], m.bigEndian);
      var nonzeros := UnpackInt(ba[5..9], m.bigEndian);
      if |ba| != 9 + 12 * nonzeros then Err(WrongLength)
      else
        var indices := ArrayOf(Ints(m.bigEndian), ba[9..9 + 4 * nonzeros]);
        var values := ArrayOf(m.doubles, ba[9 + 4 * nonzeros..]);
        if SparseVectors.Increasing(indices) then Ok(Sparse(size, indices, values)) else Err(NotSorted)
  }

  /** Where the i-th value of an array lies. */
  lemma {:induction false} ArrayBytesAt<T(!new)>(c: Fixed<T>, xs: seq<T>, i: nat)
    requires Bijective(c) && i < |xs|
    ensures 0 <= ByteCount(i, c.width) <= ByteCount(i + 1, c.width) <= |ArrayBytes(c, xs)|
    ensures ArrayBytes(c, xs)[ByteCount(i, c.width)..ByteCount(i + 1, c.width)] == c.enc(xs[i])
  {
    var b, tail := ArrayBytes(c, xs), ArrayBytes(c, xs[1..]);
    OneMoreWidth(i, c.width);
    OneMoreWidth(i + 1, c.width);
    assert ByteCount(0, c.width) == 0;
    hide ByteCount;
    assert b == c.enc(xs[0]) + tail;
    if i > 0 {
      ArrayBytesAt(c, xs[1..], i - 1);
      assert b[ByteCount(i, c.width)..ByteCount(i + 1, c.width)] == tail[ByteCount(i - 1, c.width)..ByteCount(i, c.width)];
    }
  }

  /** The formats written out: magic byte, header integers, and where the arrays start. */
  lemma Layouts<F(!new)>(m: Machine<F>, size: int, indices: seq<Int32>, values: seq<F>, x: Matrix<F>)
    requires m.Valid() && IsInt32(size) && |indices| == |values| < INT_LIMIT && IsInt32(x.rows) && IsInt32(x.cols)
    ensures var b := DenseBytes(m, values);
      |b| >= 5 && b[0] == 1 && b[1..5] == PackInt(|values|, m.bigEndian) && b[5..] == ArrayBytes(m.doubles, values)
    ensures var b := SparseBytes(m, size, indices, values);
      && |b| >= 9 + 4 * |values| && b[0] == 2
      && b[1..5] == PackInt(size, m.bigEndian) && b[5..9] == PackInt(|values|, m.bigEndian)
      && b[9..9 + 4 * |values|] == ArrayBytes(Ints(m.bigEndian), indices) && b[9 + 4 * |values|..] == ArrayBytes(m.doubles, values)
    ensures var b := MatrixBytes(m, x);
      && |b| >= 9 && b[0] == 3
      && b[1..5] == PackInt(x.rows, m.bigEndian) && b[5..9] == PackInt(x.cols, m.bigEndian) && b[9..] == ArrayBytes(m.doubles, x.data)
  {
    hide PackInt, ArrayBytes, Bijective;
    IntsBijective(m.bigEndian);
    ArrayBytesLength(Ints(m.bigEndian), indices);
  }

  // ---------- Writing into a byte array ----------

  /** s with bytes in place of what it held from offset on. */
  function Overwrite(s: seq<Byte>, offset: nat, bytes: seq<Byte>): (r: seq<Byte>)
    requires offset + |bytes| <= |s|
    ensures |r| == |s|
  {
    s[..offset] + bytes + s[offset + |bytes|..]
  }

  /** What is written up to the end of bytes. */
  lemma WrittenSoFar(s: seq<Byte>, offset: nat, bytes: seq<Byte>)
    requires offset + |bytes| <= |s|
    ensures Overwrite(s, offset, bytes)[..offset + |bytes|] == s[..offset] + bytes
  {
  }

  /** Writes after a first byte, each where the one before ended, that fill s. */
  lemma TwoWrites(s: seq<Byte>, a: seq<Byte>, b: seq<Byte>)
    requires |s| == 1 + |a| + |b|
    ensures Overwrite(Overwrite(s, 1, a), 1 + |a|, b) == [s[0]] + a + b
  {
  }

  lemma ThreeWrites(s: seq<Byte>, a: seq<Byte>, b: seq<Byte>, c: seq<Byte>)
    requires |s| == 1 + |a| + |b| + |c|
    ensures var t := Overwrite(Overwrite(s, 1, a), 1 + |a|, b);
      Overwrite(t, 1 + |a| + |b|, c) == [s[0]] + a + b + c
  {
    hide Overwrite;
    var s1 := Overwrite(s, 1, a);
    var s2 := Overwrite(s1, 1 + |a|, b);
    var s3 := Overwrite(s2, 1 + |a| + |b|, c);
    WrittenSoFar(s, 1, a);
    WrittenSoFar(s1, 1 + |a|, b);
    WrittenSoFar(s2, 1 + |a| + |b|, c);
    assert s3 == s3[..|s3|];
  }

  lemma FourWrites(s: seq<Byte>, a: seq<Byte>, b: seq<Byte>, c: seq<Byte>, d: seq<Byte>)
    requires |s| == 1 + |a| + |b| + |c| + |d|
    ensures var t := Overwrite(Overwrite(Overwrite(s, 1, a), 1 + |a|, b), 1 + |a| + |b|, c);
      Overwrite(t, 1 + |a| + |b| + |c|, d) == [s[0]] + a + b + c + d
  {
    hide Overwrite;
    var s1 := Overwrite(s, 1, a);
    var s2 := Overwrite(s1, 1 + |a|, b);
    var s3 := Overwrite(s2, 1 + |a| + |b|, c);
    var s4 := Overwrite(s3, 1 + |a| + |b| + |c|, d);
    WrittenSoFar(s, 1, a);
    WrittenSoFar(s1, 1 + |a|, b);
    WrittenSoFar(s2, 1 + |a| + |b|, c);
    WrittenSoFar(s3, 1 + |a| + |b| + |c|, d);
    assert s4 == s4[..|s4|];
  }

  /** An assignment through an ndarray view of ba at offset. */
  method Put(ba: array<Byte>, offset: nat, bytes: seq<Byte>)
    requires offset + |bytes| <= ba.Length
    modifies ba
    ensures ba[..] == Overwrite(old(ba[..]), offset, bytes)
  {
    for i := 0 to |bytes|
      invariant forall j :: 0 <= j < ba.Length ==>
                  ba[j] == if offset <= j < offset + i then bytes[j - offset] else old(ba[j])
    {
      ba[offset + i] := bytes[i];
    }
  }

  method SerializeDense<F(!new)>(m: Machine<F>, v: seq<F>) returns (ba: array<Byte>)
    requires m.Valid() && |v| < INT_LIMIT
    ensures fresh(ba) && ba[..] == DenseBytes(m, v)
  {
    hide PackInt, ArrayBytes, Bijective, Overwrite;
    ArrayBytesLength(m.doubles, v);
    ba := new Byte[5 + 8 * |v|](_ => 0);
    ba[0] := DENSE_VECTOR_MAGIC;
    ghost var blank := ba[..];
    Put(ba, 1, PackInt(|v|, m.bigEndian));
    Put(ba, 5, ArrayBytes(m.doubles, v));
    TwoWrites(blank, PackInt(|v|, m.bigEndian), ArrayBytes(m.doubles, v));
  }

  method SerializeSparse<F(!new)>(m: Machine<F>, size: int, indices: seq<Int32>, values: seq<F>) returns (ba: array<Byte>)
    requires m.Valid() && IsInt32(size) && |indices| == |values| < INT_LIMIT
    ensures fresh(ba) && ba[..] == SparseBytes(m, size, indices, values)
  {
    hide PackInt, ArrayBytes, Bijective, Overwrite;
    var nonzeros := |indices|;
    IntsBijective(m.bigEndian);
    ArrayBytesLength(Ints(m.bigEndian), indices);
    ArrayBytesLength(m.doubles, values);
    var header, count := PackInt(size, m.bigEndian), PackInt(nonzeros, m.bigEndian);
    var ix, vs := ArrayBytes(Ints(m.bigEndian), indices), ArrayBytes(m.doubles, values);
    ba := new Byte[9 + 12 * nonzeros](_ => 0);
    ba[0] := SPARSE_VECTOR_MAGIC;
    ghost var blank := ba[..];
    Put(ba, 1, header);
    Put(ba, 5, count);
    Put(ba, 9, ix);
    Put(ba, 9 + 4 * nonzeros, vs);
    FourWrites(blank, header, count, ix, vs);
  }

  // ---------- Two-sided inverses: vectors ----------

  lemma DenseRoundTrip<F(!new)>(m: Machine<F>, values: seq<F>)
    requires m.Valid() && |values| < INT_LIMIT
    ensures DeserializeVector(m, DenseBytes(m, values)) == Ok(Dense(values))
  {
    var ba, head, body := DenseBytes(m, values), PackInt(|values|, m.bigEndian), ArrayBytes(m.doubles, values);
    ArrayBytesLength(m.doubles, values);
    UnpackPack(|values|, m.bigEndian);
    ReadWrite(m.doubles, values);
    assert ba[1..5] == head && ba[5..] == body;
  }

  lemma SparseRoundTrip<F(!new)>(m: Machine<F>, size: int, indices: seq<Int32>, values: seq<F>)
    requires m.Valid() && IsInt32(size) && |indices| == |values| < INT_LIMIT
    ensures DeserializeVector(m, SparseBytes(m, size, indices, values))
         == if SparseVectors.Increasing(indices) then Ok(Sparse(size, indices, values)) else Err(NotSorted)
  {
    hide PackInt, UnpackInt, ArrayOf, ArrayBytes, Bijective;
    var ba := SparseBytes(m, size, indices, values);
    var n := |indices|;
    var head, count := PackInt(size, m.bigEndian), PackInt(n, m.bigEndian);
    var ix, vs := ArrayBytes(Ints(m.bigEndian), indices), ArrayBytes(m.doubles, values);
    IntsBijective(m.bigEndian);
    ArrayBytesLength(Ints(m.bigEndian), indices);
    ArrayBytesLength(m.doubles, values);
    UnpackPack(size, m.bigEndian);
    UnpackPack(n, m.bigEndian);
    ReadWrite(Ints(m.bigEndian), indices);
    ReadWrite(m.doubles, values);
    assert ba[1..5] == head && ba[5..9] == count;
    assert ba[9..9 + 4 * n] == ix && ba[9 + 4 * n..] == vs;
  }

  lemma AcceptedDense<F(!new)>(m: Machine<F>, ba: seq<Byte>)
    requires m.Valid() && |ba| >= 5 && ba[0] == DENSE_VECTOR_MAGIC && DeserializeDense(m, ba).Ok?
    ensures DeserializeDense(m, ba).value.Dense? && VectorOk(DeserializeDense(m, ba).value)
    ensures VectorToBytes(m, DeserializeDense(m, ba).value) == ba
  {
    var length := UnpackInt(ba[1..5], m.bigEndian);
    WriteRead(m.doubles, ba[5..], length);
    PackUnpack(ba[1..5], m.bigEndian);
    assert ba == [ba[0]] + ba[1..5] + ba[5..];
  }

  lemma AcceptedSparse<F(!new)>(m: Machine<F>, ba: seq<Byte>)
    requires m.Valid() && |ba| >= 5 && ba[0] == SPARSE_VECTOR_MAGIC && DeserializeSparse(m, ba).Ok?
    ensures DeserializeSparse(m, ba).value.Sparse? && VectorOk(DeserializeSparse(m, ba).value)
    ensures VectorToBytes(m, DeserializeSparse(m, ba).value) == ba
  {
    hide PackInt, UnpackInt, ArrayOf, ArrayBytes;
    var n := UnpackInt(ba[5..9], m.bigEndian);
    IntsBijective(m.bigEndian);
    WriteRead(Ints(m.bigEndian), ba[9..9 + 4 * n], n);
    WriteRead(m.doubles, ba[9 + 4 * n..], n);
    PackUnpack(ba[1..5], m.bigEndian);
    PackUnpack(ba[5..9], m.bigEndian);
    assert ba == [ba[0]] + ba[1..5] + ba[5..9] + ba[9..9 + 4 * n] + ba[9 + 4 * n..];
  }

  /** Main result for vectors: deserializing undoes serializing, and every byte array that the
      deserializer accepts is exactly what serializing its result writes. */
  lemma VectorFormatIsTwoSided<F(!new)>(m: Machine<F>, v: Vector<F>, ba: seq<Byte>)
    requires m.Valid()
    ensures VectorOk(v) ==> DeserializeVector(m, VectorToBytes(m, v)) == Ok(v)
    ensures DeserializeVector(m, ba).Ok? ==>
              VectorOk(DeserializeVector(m, ba).value) && VectorToBytes(m, DeserializeVector(m, ba).value) == ba
  {
    if VectorOk(v) {
      match v
      case Dense(values) => DenseRoundTrip(m, values);
      case Sparse(size, indices, values) => SparseRoundTrip(m, size, indices, values);
    }
    if DeserializeVector(m, ba).Ok? {
      if ba[0] == DENSE_VECTOR_MAGIC {
        AcceptedDense(m, ba);
      } else {
        AcceptedSparse(m, ba);
      }
    }
  }

  // ---------- Matrices ----------

  /** `_serialize_double_matrix`: the header view asks for three integers, so a matrix without
      elements leaves too small a buffer. */
  method SerializeMatrix<F(!new)>(m: Machine<F>, x: Matrix<F>) returns (r: Result<array<Byte>, Error>)
    requires m.Valid() && MatrixOk(x)
    ensures r.Ok? <==> x.data != []
    ensures r.Ok? ==> fresh(r.value) && r.value[..] == MatrixBytes(m, x)
  {
    hide PackInt, ArrayBytes, Bijective, Overwrite;
    ArrayBytesLength(m.doubles, x.data);
    var ba := new Byte[9 + 8 * |x.data|](_ => 0);
    ba[0] := DENSE_MATRIX_MAGIC;
    ghost var blank := ba[..];
    if 1 + 3 * 4 > ba.Length {
      return Err(BufferTooSmall);
    }
    Put(ba, 1, PackInt(x.rows, m.bigEndian));
    Put(ba, 5, PackInt(x.cols, m.bigEndian));
    Put(ba, 9, ArrayBytes(m.doubles, x.data));
    ThreeWrites(blank, PackInt(x.rows, m.bigEndian), PackInt(x.cols, m.bigEndian), ArrayBytes(m.doubles, x.data));
    r := Ok(ba);
  }

  function DeserializeMatrix<F(!new)>(m: Machine<F>, ba: seq<Byte>): Result<Matrix<F>, Error>
    requires m.doubles.width > 0
  {
    if |ba| < 9 then Err(TooShort)
    else if ba[0] != DENSE_MATRIX_MAGIC then Err(WrongMagic)
    else
      var rows := UnpackInt(ba[1..5], m.bigEndian);
      var cols := UnpackInt(ba[5..9], m.bigEndian);
      if |ba| != 8 * (rows * cols) + 9 then Err(WrongLength)
      else if rows < 0 || cols < 0 then Err(NegativeDimension)
      else Ok(Matrix(rows, cols, ArrayOf(m.doubles, ba[9..])))
  }

  /** Main result for matrices. The deserializer also accepts matrices without elements, which the
      serializer cannot write; on all others the two are inverse to each other. */
  lemma MatrixFormatIsTwoSided<F(!new)>(m: Machine<F>, x: Matrix<F>, ba: seq<Byte>)
    requires m.Valid()
    ensures MatrixOk(x) ==> DeserializeMatrix(m, MatrixBytes(m, x)) == Ok(x)
    ensures DeserializeMatrix(m, ba).Ok? ==>
              MatrixOk(DeserializeMatrix(m, ba).value) && MatrixBytes(m, DeserializeMatrix(m, ba).value) == ba
  {
    if MatrixOk(x) {
      MatrixRoundTrip(m, x);
    }
    if DeserializeMatrix(m, ba).Ok? {
      AcceptedMatrix(m, ba);
    }
  }

  lemma MatrixRoundTrip<F(!new)>(m: Machine<F>, x: Matrix<F>)
    requires m.Valid() && MatrixOk(x)
    ensures DeserializeMatrix(m, MatrixBytes(m, x)) == Ok(x)
  {
    var ba, rows, cols := MatrixBytes(m, x), PackInt(x.rows, m.bigEndian), PackInt(x.cols, m.bigEndian);
    ArrayBytesLength(m.doubles, x.data);
    UnpackPack(x.rows, m.bigEndian);
    UnpackPack(x.cols, m.bigEndian);
    ReadWrite(m.doubles, x.data);
    assert ba[1..5] == rows && ba[5..9] == cols && ba[9..] == ArrayBytes(m.doubles, x.data);
  }

  lemma AcceptedMatrix<F(!new)>(m: Machine<F>, ba: seq<Byte>)
    requires m.Valid() && DeserializeMatrix(m, ba).Ok?
    ensures MatrixOk(DeserializeMatrix(m, ba).value)
    ensures MatrixBytes(m, DeserializeMatrix(m, ba).value) == ba
  {
    var x := DeserializeMatrix(m, ba).value;
    WriteRead(m.doubles, ba[9..], x.rows * x.cols);
    PackUnpack(ba[1..5], m.bigEndian);
    PackUnpack(ba[5..9], m.bigEndian);
    assert ba == [ba[0]] + ba[1..5] + ba[5..9] + ba[9..];
  }
}
