/**
 The product quantizer: training, nearest-centroid encoding, decoding, and asymmetric distances
 computed directly and through a lookup table.
 */
module ProductQuantizers {
  import opened KMeans
  import opened Results
  import opened Vectors

  datatype Config = Config(dimension: nat, numSubquantizers: nat, numCentroids: nat, numIterations: nat)

  // ----------------------------------------------------------- vectors cut into pieces

  /** Piece number j of a vector cut into pieces of length d. */
  function Piece(v: Vector, j: nat, d: nat): (p: Vector)
    requires (j + 1) * d <= |v|
    ensures |p| == d
  {
    Bounds(j, d);
    v[j*d..(j+1)*d]
  }

  lemma Bounds(j: nat, d: nat)
    ensures 0 <= j * d && j * d + d == (j + 1) * d
  {
  }

  lemma PieceFits(j: nat, m: nat, d: nat)
    requires j < m
    ensures (j + 1) * d <= m * d
  {
  }

  /** m codebooks of k centroids of dimension d. */
  ghost predicate Books(books: seq<seq<Vector>>, m: nat, k: nat, d: nat) {
    |books| == m && forall j :: 0 <= j < m ==> |books[j]| == k && Codebook(books[j], d)
  }

  predicate Codes(codes: seq<nat>, m: nat, k: nat) {
    |codes| == m && forall j :: 0 <= j < m ==> codes[j] < k
  }

  /** The centroids named by a code, one behind the other. */
  function Decoded(books: seq<seq<Vector>>, codes: seq<nat>, k: nat, d: nat, n: nat): (v: Vector)
    requires n <= |codes| && n <= |books|
    requires forall j :: 0 <= j < n ==> codes[j] < |books[j]| && |books[j][codes[j]]| == d
    ensures |v| == n * d
  {
    if n == 0 then [] else Decoded(books, codes, k, d, n - 1) + books[n-1][codes[n-1]]
  }

  lemma {:induction false} DecodedPiece(books: seq<seq<Vector>>, codes: seq<nat>, k: nat, d: nat, n: nat, j: nat)
    requires n <= |codes| && n <= |books| && j < n
    requires forall i :: 0 <= i < n ==> codes[i] < |books[i]| && |books[i][codes[i]]| == d
    ensures (j + 1) * d <= n * d
    ensures Piece(Decoded(books, codes, k, d, n), j, d) == books[j][codes[j]]
  {
    PieceFits(j, n, d);
    Bounds(j, d);
    if j < n - 1 {
      PieceFits(j, n - 1, d);
      DecodedPiece(books, codes, k, d, n - 1, j);
      assert Decoded(books, codes, k, d, n)[..(n-1)*d] == Decoded(books, codes, k, d, n - 1);
      assert Piece(Decoded(books, codes, k, d, n), j, d) == Piece(Decoded(books, codes, k, d, n - 1), j, d);
    }
  }

  // --------------------------------------------------- distance, piece by piece

  /** Squared distance between v and w summed over their first n pieces. */
  ghost function PieceCost(v: Vector, w: Vector, d: nat, n: nat): real
    requires n * d <= |v| && n * d <= |w|
  {
    if n == 0 then 0.0
    else
      PieceFits(n - 1, n, d);
      Bounds(n - 1, d);
      PieceCost(v, w, d, n - 1) + SqDist(Piece(v, n - 1, d), Piece(w, n - 1, d))
  }

  lemma {:induction false} SqDistExtend(v: Vector, w: Vector, a: nat, n: nat)
    requires a + n <= |v| && a + n <= |w|
    ensures SqDistN(v, w, a + n) == SqDistN(v, w, a) + SqDistN(v[a..a+n], w[a..a+n], n)
  {
    if n > 0 {
      SqDistExtend(v, w, a, n - 1);
      SqDistCut(v[a..a+n], w[a..a+n], v[a..a+n-1], w[a..a+n-1], n - 1);
    }
  }

  lemma {:induction false} SqDistCut(v: Vector, w: Vector, v': Vector, w': Vector, n: nat)
    requires n <= |v'| && n <= |w'| && v' <= v && w' <= w
    ensures SqDistN(v, w, n) == SqDistN(v', w', n)
  {
    if n > 0 {
      SqDistCut(v, w, v', w', n - 1);
    }
  }

  /** The squared distance of whole vectors is the sum over their pieces. */
  lemma {:induction false} SqDistIsPieceCost(v: Vector, w: Vector, d: nat, n: nat)
    requires n * d <= |v| && n * d <= |w|
    ensures SqDistN(v, w, n * d) == PieceCost(v, w, d, n)
  {
    if n > 0 {
      PieceFits(n - 1, n, d);
      Bounds(n - 1, d);
      SqDistIsPieceCost(v, w, d, n - 1);
      SqDistExtend(v, w, (n - 1) * d, d);
    }
  }

  // ---------------------------------------------------------------- optimal encoding

  ghost predicate Nearest(books: seq<seq<Vector>>, v: Vector, codes: seq<nat>, m: nat, k: nat, d: nat)
    requires Books(books, m, k, d) && |v| == m * d && Codes(codes, m, k)
  {
    forall j :: 0 <= j < m ==> PieceNearest(books, v, codes, j, d)
  }

  /** Code j names the first of the centroids nearest to piece j. */
  ghost predicate PieceNearest(books: seq<seq<Vector>>, v: Vector, codes: seq<nat>, j: nat, d: nat)
    requires j < |books| && j < |codes| && Codebook(books[j], d)
  {
    (j + 1) * d <= |v| && codes[j] < |books[j]| && FirstNearest(Piece(v, j, d), books[j], codes[j])
  }

  lemma NearestSoFar(books: seq<seq<Vector>>, v: Vector, codes: seq<nat>, best: nat, d: nat)
    requires |codes| < |books| && (|codes| + 1) * d <= |v|
    requires forall j :: 0 <= j < |books| ==> Codebook(books[j], d)
    requires forall j :: 0 <= j < |codes| ==> PieceNearest(books, v, codes, j, d)
    requires best < |books[|codes|]| && FirstNearest(Piece(v, |codes|, d), books[|codes|], best)
    ensures forall j :: 0 <= j < |codes| + 1 ==> PieceNearest(books, v, codes + [best], j, d)
  {
    forall j | 0 <= j < |codes|
      ensures PieceNearest(books, v, codes + [best], j, d)
    {
      assert PieceNearest(books, v, codes, j, d);
    }
  }

  lemma {:induction false} NearestPieces(books: seq<seq<Vector>>, v: Vector, best: seq<nat>, other: seq<nat>, m: nat,
                                         k: nat, d: nat, n: nat)
    requires Books(books, m, k, d) && |v| == m * d && Codes(best, m, k) && Codes(other, m, k) && n <= m
    requires Nearest(books, v, best, m, k, d)
    ensures n * d <= m * d
    ensures PieceCost(v, Decoded(books, best, k, d, m), d, n) <= PieceCost(v, Decoded(books, other, k, d, m), d, n)
  {
    PrefixFits(n, m, d);
    if n > 0 {
      NearestPieces(books, v, best, other, m, k, d, n - 1);
      NearestPiece(books, v, best, other, m, k, d, n - 1);
      PieceFits(n - 1, n, d);
      Bounds(n - 1, d);
    }
  }

  lemma PrefixFits(n: nat, m: nat, d: nat)
    requires n <= m
    ensures n * d <= m * d
  {}

  lemma NearestPiece(books: seq<seq<Vector>>, v: Vector, best: seq<nat>, other: seq<nat>, m: nat, k: nat, d: nat,
                     j: nat)
    requires Books(books, m, k, d) && |v| == m * d && Codes(best, m, k) && Codes(other, m, k) && j < m
    requires Nearest(books, v, best, m, k, d)
    ensures (j + 1) * d <= m * d && j * d + d == (j + 1) * d
    ensures SqDist(Piece(v, j, d), Piece(Decoded(books, best, k, d, m), j, d))
         <= SqDist(Piece(v, j, d), Piece(Decoded(books, other, k, d, m), j, d))
  {
    PieceFits(j, m, d);
    Bounds(j, d);
    DecodedPiece(books, best, k, d, m, j);
    DecodedPiece(books, other, k, d, m, j);
    assert PieceNearest(books, v, best, j, d);
  }

  /** Among all numCentroids ^ numSubquantizers codes, the nearest-centroid code decodes to a vector
      nearest to the input. */
  lemma EncodingIsOptimal(books: seq<seq<Vector>>, v: Vector, best: seq<nat>, other: seq<nat>, m: nat, k: nat, d: nat)
    requires Books(books, m, k, d) && |v| == m * d && Codes(best, m, k) && Codes(other, m, k)
    requires Nearest(books, v, best, m, k, d)
    ensures SqDist(v, Decoded(books, best, k, d, m)) <= SqDist(v, Decoded(books, other, k, d, m))
  {
    NearestPieces(books, v, best, other, m, k, d, m);
    SqDistIsPieceCost(v, Decoded(books, best, k, d, m), d, m);
    SqDistIsPieceCost(v, Decoded(books, other, k, d, m), d, m);
  }

  /** Encoding a decoded vector may pick another code, but never one that decodes differently. */
  lemma ReencodingKeepsDecoded(books: seq<seq<Vector>>, codes: seq<nat>, again: seq<nat>, m: nat, k: nat, d: nat)
    requires Books(books, m, k, d) && Codes(codes, m, k) && Codes(again, m, k)
    requires Nearest(books, Decoded(books, codes, k, d, m), again, m, k, d)
    ensures Decoded(books, again, k, d, m) == Decoded(books, codes, k, d, m)
  {
    var v := Decoded(books, codes, k, d, m);
    var w := Decoded(books, again, k, d, m);
    EncodingIsOptimal(books, v, again, codes, m, k, d);
    SqDistZero(v, v, |v|);
    SqDistZero(v, w, |v|);
    assert v[..|v|] == v && w[..|v|] == w;
  }

  // ------------------------------------------------------------ asymmetric distance

  /** Squared distance of the query's pieces to the named centroids; an invalid code adds nothing. */
  ghost function AdcSum(books: seq<seq<Vector>>, query: Vector, codes: seq<nat>, m: nat, k: nat, d: nat, n: nat): real
    requires Books(books, m, k, d) && |query| == m * d && |codes| == m && n <= m
  {
    if n == 0 then 0.0
    else
      PieceFits(n - 1, m, d);
      AdcSum(books, query, codes, m, k, d, n - 1)
      + if codes[n-1] < k then SqDist(Piece(query, n - 1, d), books[n-1][codes[n-1]]) else 0.0
  }

  /** For a valid code it is the squared distance to the decoded vector. */
  lemma {:induction false} AdcPieces(books: seq<seq<Vector>>, query: Vector, codes: seq<nat>, m: nat, k: nat, d: nat,
                                     n: nat)
    requires Books(books, m, k, d) && |query| == m * d && Codes(codes, m, k) && n <= m
    ensures n * d <= m * d
    ensures AdcSum(books, query, codes, m, k, d, n) == PieceCost(query, Decoded(books, codes, k, d, m), d, n)
  {
    assert m * d == n * d + (m - n) * d;
    if n > 0 {
      AdcPieces(books, query, codes, m, k, d, n - 1);
      DecodedPiece(books, codes, k, d, m, n - 1);
    }
  }

  lemma AdcIsDistanceToDecoded(books: seq<seq<Vector>>, query: Vector, codes: seq<nat>, m: nat, k: nat, d: nat)
    requires Books(books, m, k, d) && |query| == m * d && Codes(codes, m, k)
    ensures AdcSum(books, query, codes, m, k, d, m) == SqDist(query, Decoded(books, codes, k, d, m))
  {
    AdcPieces(books, query, codes, m, k, d, m);
    SqDistIsPieceCost(query, Decoded(books, codes, k, d, m), d, m);
  }

  /** Where the table keeps the distance of subquantizer j to centroid c. */
  function Slot(j: nat, c: nat, k: nat): nat {
    j * k + c
  }

  /** Row j of the table: the distances of piece j of the query to the centroids of book j. */
  ghost predicate IsRow(table: seq<real>, books: seq<seq<Vector>>, query: Vector, m: nat, k: nat, d: nat, j: nat)
    requires Books(books, m, k, d) && |query| == m * d && |table| == m * k && j < m
  {
    PieceFits(j, m, d);
    forall c :: 0 <= c < k ==>
                  Slot(j, c, k) < |table| && table[Slot(j, c, k)] == SqDist(Piece(query, j, d), books[j][c])
  }

  ghost predicate IsTable(table: seq<real>, books: seq<seq<Vector>>, query: Vector, m: nat, k: nat, d: nat)
    requires Books(books, m, k, d) && |query| == m * d
  {
    |table| == m * k && forall j :: 0 <= j < m ==> IsRow(table, books, query, m, k, d, j)
  }

  lemma SlotFits(j: nat, c: nat, m: nat, k: nat)
    requires j < m && c < k
    ensures j * k <= Slot(j, c, k) < (j + 1) * k <= m * k
  {
    PieceFits(j, m, k);
    Bounds(j, k);
  }

  /** Rows below the one just written are untouched by it. */
  lemma RowKept(before: seq<real>, after: seq<real>, books: seq<seq<Vector>>, query: Vector, m: nat, k: nat, d: nat,
                j: nat, row: nat)
    requires Books(books, m, k, d) && |query| == m * d && |before| == |after| == m * k && j < row < m
    requires IsRow(before, books, query, m, k, d, j)
    requires row * k <= m * k && forall p :: 0 <= p < row * k ==> after[p] == before[p]
    ensures IsRow(after, books, query, m, k, d, j)
  {
    forall c | 0 <= c < k
      ensures Slot(j, c, k) < row * k
    {
      SlotFits(j, c, row, k);
    }
  }

  // ------------------------------------------------------------------------ training

  /** Piece j of every training vector. */
  function Pieces(data: seq<Vector>, j: nat, m: nat, d: nat): (ps: seq<Vector>)
    requires j < m && forall i :: 0 <= i < |data| ==> |data[i]| == m * d
    ensures |ps| == |data| && Codebook(ps, d)
    ensures (j + 1) * d <= m * d
    ensures forall i :: 0 <= i < |data| ==> ps[i] == Piece(data[i], j, d)
  {
    PieceFits(j, m, d);
    seq(|data|, i requires 0 <= i < |data| => Piece(data[i], j, d))
  }

  /** The book is where that many iterations lead from some k of the pieces taken as centroids, and fits the
      pieces at least as well as those. */
  ghost predicate Fitted(pieces: seq<Vector>, book: seq<Vector>, k: nat, iterations: nat, d: nat) {
    k > 0 && Codebook(pieces, d) && exists books :: FittedBy(pieces, book, books, k, iterations, d)
  }

  ghost predicate FittedBy(pieces: seq<Vector>, book: seq<Vector>, books: seq<seq<Vector>>, k: nat, iterations: nat,
                           d: nat)
    requires Codebook(pieces, d) && k > 0
  {
    && LloydRun(pieces, books, iterations, k, d) && books[iterations] == book
    && (forall c :: 0 <= c < k ==> books[0][c] in pieces && Spread(pieces, books[0], c))
    && Distortion(pieces, book, d, |pieces|) <= Distortion(pieces, books[0], d, |pieces|)
  }

  /** A trained codebook holds means: each centroid is the mean of the pieces nearest to it before the last
      iteration, and one with no such piece was left alone by it. Without iterations it holds k of the pieces. */
  lemma FittedHoldsMeans(pieces: seq<Vector>, book: seq<Vector>, k: nat, iterations: nat, d: nat)
    requires Fitted(pieces, book, k, iterations, d)
    ensures Codebook(pieces, d) && |book| == k && Codebook(book, d)
    ensures iterations == 0 ==>
              forall c :: 0 <= c < k ==>
                            && book[c] in pieces
                            && (book[c] !in book[..c] || forall x :: x in pieces ==> x in book[..c])
    ensures iterations > 0 ==>
              exists before :: |before| == k && Codebook(before, d) && MovedToMeans(pieces, before, book, d)
  {
    var books :| FittedBy(pieces, book, books, k, iterations, d);
    if iterations > 0 {
      RunMovesToMeans(pieces, books, iterations, k, d, iterations - 1);
      assert MovedToMeans(pieces, books[iterations-1], book, d);
    }
  }

  // ------------------------------------------------------------------- the quantizer

  class ProductQuantizer {
    const dimension: nat
    const numSubquantizers: nat
    const numCentroids: nat
    const numIterations: nat
    const subvectorDim: nat
    const sqrt: real -> real
    const farthest: real
    var trained: bool
    var codebooks: seq<seq<Vector>>

    ghost predicate Valid()
      reads this
    {
      && subvectorDim == dimension / (if numSubquantizers == 0 then 1 else numSubquantizers)
      && |codebooks| == numSubquantizers
      && (trained ==>
            && dimension == numSubquantizers * subvectorDim
            && 1 <= numCentroids <= 256
            && Books(codebooks, numSubquantizers, numCentroids, subvectorDim))
    }

    /** A subquantizer count that does not divide the dimension is replaced by eight. */
    constructor (config: Config, sqrt: real -> real, farthest: real)
      requires config.numSubquantizers > 0
      ensures Valid() && !trained
      ensures dimension == config.dimension && numCentroids == config.numCentroids
      ensures numIterations == config.numIterations
      ensures numSubquantizers == if config.dimension % config.numSubquantizers == 0 then config.numSubquantizers else 8
      ensures this.sqrt == sqrt && this.farthest == farthest
    {
      var m := if config.dimension % config.numSubquantizers != 0 then 8 else config.numSubquantizers;
      dimension := config.dimension;
      numSubquantizers := m;
      numCentroids := config.numCentroids;
      numIterations := config.numIterations;
      subvectorDim := config.dimension / m;
      this.sqrt := sqrt;
      this.farthest := farthest;
      trained := false;
      codebooks := seq(m, _ => []);
    }

    function ConfigError(): (e: Result<()>) {
      if dimension == 0 then Err(InvalidDimension)
      else if numSubquantizers == 0 then Err(InvalidInput)
      else if dimension % numSubquantizers != 0 then Err(InvalidDimension)
      else if numCentroids == 0 || numCentroids > 256 then Err(InvalidInput)
      else Ok(())
    }

    lemma ConfigOk()
      requires Valid() && ConfigError().Ok?
      ensures dimension == numSubquantizers * subvectorDim
    {
    }

    /** Trains every subquantizer on its own pieces of the training data. */
    method Train(data: seq<Vector>) returns (r: Result<()>)
      requires Valid()
      modifies this
      ensures Valid()
      ensures r == if data == [] then Err(InvalidInput)
                   else if dimension == 0 then Err(InvalidDimension)
                   else if numSubquantizers == 0 then Err(InvalidInput)
                   else if dimension % numSubquantizers != 0 then Err(InvalidDimension)
                   else if numCentroids == 0 || numCentroids > 256 then Err(InvalidInput)
                   else if exists i :: 0 <= i < |data| && |data[i]| != dimension then Err(InvalidDimension)
                   else Ok(())
      ensures r.Ok? ==> trained && forall i :: 0 <= i < |data| ==> |data[i]| == numSubquantizers * subvectorDim
      ensures r.Ok? ==> forall j :: 0 <= j < numSubquantizers ==>
                          Fitted(Pieces(data, j, numSubquantizers, subvectorDim), codebooks[j], numCentroids,
                              numIterations, subvectorDim)
      ensures r.Err? ==> trained == old(trained) && codebooks == old(codebooks)
    {
      if data == [] {
        return Err(InvalidInput);
      }
      var check := ConfigError();
      if check.Err? {
        return Err(check.error);
      }
      ConfigOk();
      for i := 0 to |data|
        invariant forall j :: 0 <= j < i ==> |data[j]| == dimension
      {
        if |data[i]| != dimension {
          return Err(InvalidDimension);
        }
      }
      var books: seq<seq<Vector>> := [];
      for sq := 0 to numSubquantizers
        invariant |books| == sq
        invariant forall j :: 0 <= j < sq ==>
                                Fitted(Pieces(data, j, numSubquantizers, subvectorDim), books[j], numCentroids,
                                    numIterations, subvectorDim)
      {
        var pieces := Pieces(data, sq, numSubquantizers, subvectorDim);
        var book, steps := KMeans.Train(pieces, numCentroids, numIterations, subvectorDim);
        assert FittedBy(pieces, book, steps, numCentroids, numIterations, subvectorDim);
        books := books + [book];
      }
      codebooks := books;
      trained := true;
      return Ok(());
    }

    /** Picks the nearest centroid in every piece; codes fit a byte. */
    method Encode(v: Vector) returns (r: Result<seq<nat>>)
      requires Valid()
      ensures !trained ==> r == Err(InvalidState)
      ensures trained && |v| != dimension ==> r == Err(InvalidDimension)
      ensures trained && |v| == dimension ==>
                && r.Ok? && Codes(r.value, numSubquantizers, numCentroids)
                && (forall c :: c in r.value ==> c < 256)
                && Nearest(codebooks, v, r.value, numSubquantizers, numCentroids, subvectorDim)
    {
      if !trained {
        return Err(InvalidState);
      }
      if |v| != dimension {
        return Err(InvalidDimension);
      }
      var codes := EncodePieces(v);
      return Ok(codes);
    }

    method EncodePieces(v: Vector) returns (codes: seq<nat>)
      requires Valid() && trained && |v| == dimension
      ensures Codes(codes, numSubquantizers, numCentroids)
      ensures Nearest(codebooks, v, codes, numSubquantizers, numCentroids, subvectorDim)
    {
      codes := [];
      for sq := 0 to numSubquantizers
        invariant |codes| == sq && forall j :: 0 <= j < sq ==> codes[j] < numCentroids
        invariant forall j :: 0 <= j < sq ==> PieceNearest(codebooks, v, codes, j, subvectorDim)
      {
        hide PieceNearest;
        PieceFits(sq, numSubquantizers, subvectorDim);
        var best := FindNearest(Piece(v, sq, subvectorDim), codebooks[sq]);
        NearestSoFar(codebooks, v, codes, best, subvectorDim);
        codes := codes + [best];
      }
    }

    method Decode(codes: seq<nat>) returns (r: Result<Vector>)
      requires Valid()
      ensures !trained ==> r == Err(InvalidState)
      ensures trained && |codes| != numSubquantizers ==> r == Err(InvalidInput)
      ensures trained && |codes| == numSubquantizers && !Codes(codes, numSubquantizers, numCentroids) ==>
              r == Err(InvalidData)
      ensures trained && Codes(codes, numSubquantizers, numCentroids) ==>
                r == Ok(Decoded(codebooks, codes, numCentroids, subvectorDim, numSubquantizers))
    {
      if !trained {
        return Err(InvalidState);
      }
      if |codes| != numSubquantizers {
        return Err(InvalidInput);
      }
      var reconstructed: Vector := [];
      for sq := 0 to numSubquantizers
        invariant forall j :: 0 <= j < sq ==> codes[j] < numCentroids
        invariant reconstructed == Decoded(codebooks, codes, numCentroids, subvectorDim, sq)
      {
        var code := codes[sq];
        if code >= numCentroids {
          return Err(InvalidData);
        }
        reconstructed := reconstructed + codebooks[sq][code];
      }
      return Ok(reconstructed);
    }

    /** Asymmetric distance, straight from the codebooks. */
    method ComputeDistance(query: Vector, codes: seq<nat>) returns (d: real)
      requires Valid() && |query| == dimension
      ensures !trained || |codes| != numSubquantizers ==> d == farthest
      ensures trained && |codes| == numSubquantizers ==>
                d == sqrt(AdcSum(codebooks, query, codes, numSubquantizers, numCentroids, subvectorDim,
                    numSubquantizers))
      ensures trained && Codes(codes, numSubquantizers, numCentroids) ==>
                d == sqrt(SqDist(query, Decoded(codebooks, codes, numCentroids, subvectorDim, numSubquantizers)))
    {
      if !trained || |codes| != numSubquantizers {
        return farthest;
      }
      var total := 0.0;
      for sq := 0 to numSubquantizers
        invariant total == AdcSum(codebooks, query, codes, numSubquantizers, numCentroids, subvectorDim, sq)
      {
        var code := codes[sq];
        if code < numCentroids {
          PieceFits(sq, numSubquantizers, subvectorDim);
          var part := SquaredEuclidean(Piece(query, sq, subvectorDim), codebooks[sq][code]);
          total := total + part;
        }
      }
      d := sqrt(total);
      if Codes(codes, numSubquantizers, numCentroids) {
        AdcIsDistanceToDecoded(codebooks, query, codes, numSubquantizers, numCentroids, subvectorDim);
      }
    }

    method PrecomputeDistanceTable(query: Vector) returns (table: seq<real>)
      requires Valid() && |query| == dimension
      ensures !trained ==> table == []
      ensures trained ==> IsTable(table, codebooks, query, numSubquantizers, numCentroids, subvectorDim)
    {
      if !trained {
        return [];
      }
      ghost var m, k, dim := numSubquantizers, numCentroids, subvectorDim;
      table := seq(numSubquantizers * numCentroids, _ => 0.0);
      for sq := 0 to numSubquantizers
        invariant |table| == m * k
        invariant forall j :: 0 <= j < sq ==> IsRow(table, codebooks, query, m, k, dim, j)
      {
        ghost var before := table;
        PieceFits(sq, numSubquantizers, numCentroids);
        Bounds(sq, numCentroids);
        table := FillRow(query, sq, table);
        forall j | 0 <= j < sq
          ensures IsRow(table, codebooks, query, m, k, dim, j)
        {
          RowKept(before, table, codebooks, query, m, k, dim, j, sq);
        }
      }
    }

    /** The table row of one subquantizer; earlier slots stay. */
    method FillRow(query: Vector, sq: nat, slots: seq<real>) returns (table: seq<real>)
      requires Valid() && trained && |query| == dimension && sq < numSubquantizers
      requires |slots| == numSubquantizers * numCentroids && sq * numCentroids <= |slots|
      ensures |table| == |slots| && IsRow(table, codebooks, query, numSubquantizers, numCentroids, subvectorDim, sq)
      ensures forall p :: 0 <= p < sq * numCentroids ==> table[p] == slots[p]
    {
      PieceFits(sq, numSubquantizers, subvectorDim);
      var querySubvec := Piece(query, sq, subvectorDim);
      table := slots;
      for c := 0 to numCentroids
        invariant |table| == |slots|
        invariant forall b :: 0 <= b < c ==>
                                Slot(sq, b, numCentroids) < |table|
                                && table[Slot(sq, b, numCentroids)] == SqDist(querySubvec, codebooks[sq][b])
        invariant forall p :: 0 <= p < sq * numCentroids ==> table[p] == slots[p]
      {
        SlotFits(sq, c, numSubquantizers, numCentroids);
        var d := SquaredEuclidean(querySubvec, codebooks[sq][c]);
        table := table[Slot(sq, c, numCentroids) := d];
      }
    }

    /** The table-driven distance equals the direct one for every code of the right length. */
    method ComputeDistancePrecomputed(codes: seq<nat>, table: seq<real>, ghost query: Vector) returns (d: real)
      requires Valid() && trained && |query| == dimension
      requires IsTable(table, codebooks, query, numSubquantizers, numCentroids, subvectorDim)
      ensures |codes| != numSubquantizers ==> d == farthest
      ensures |codes| == numSubquantizers ==>
                d == sqrt(AdcSum(codebooks, query, codes, numSubquantizers, numCentroids, subvectorDim,
                    numSubquantizers))
    {
      if |codes| != numSubquantizers {
        return farthest;
      }
      var total := 0.0;
      for sq := 0 to numSubquantizers
        invariant total == AdcSum(codebooks, query, codes, numSubquantizers, numCentroids, subvectorDim, sq)
      {
        var code := codes[sq];
        if code < numCentroids {
          SlotFits(sq, code, numSubquantizers, numCentroids);
          assert IsRow(table, codebooks, query, numSubquantizers, numCentroids, subvectorDim, sq);
          total := total + table[Slot(sq, code, numCentroids)];
        }
      }
      d := sqrt(total);
    }
  }
}
