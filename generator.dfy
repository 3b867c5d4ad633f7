/**
 * The 7-bag generator: a queue of upcoming pieces refilled with a shuffled
 * copy of all seven types whenever fewer than seven remain. The shuffle is an
 * arbitrary permutation chosen by the verifier's nondeterministic choice.
 */
module Generator {
  import opened Pieces

  /** One piece of each of the seven types. */
  const FullBag: multiset<Brick> :=
    multiset{Tetromino(I), Tetromino(J), Tetromino(L), Tetromino(O), Tetromino(S), Tetromino(T), Tetromino(Z)}

  /** A bag: one piece of each of the seven types, in some order. */
  predicate IsBag(s: seq<Brick>)
  {
    multiset(s) == FullBag
  }

  /** The factory's list of all pieces is a bag in declaration order. */
  lemma AllBricksIsBag()
    ensures IsBag(CreateAllBricks())
  {
    var all := CreateAllBricks();
    assert all == [Tetromino(I), Tetromino(J), Tetromino(L), Tetromino(O), Tetromino(S), Tetromino(T), Tetromino(Z)];
  }

  /** A bag has seven pieces. */
  lemma BagLength(s: seq<Brick>)
    requires IsBag(s)
    ensures |s| == 7
  {
    assert |multiset(s)| == |FullBag|;
  }

  /** A bag holds one piece of each type and nothing else. */
  lemma BagCounts(s: seq<Brick>, b: Brick)
    requires IsBag(s)
    ensures multiset(s)[b] == if b.Tetromino? then 1 else 0
  {
    match b
    case NullBrick =>
    case Tetromino(t) =>
      match t
      case I =>
      case J =>
      case L =>
      case O =>
      case S =>
      case T =>
      case Z =>
  }

  /** A sequence that is a bag. */
  type Bag = s: seq<Brick> | IsBag(s)
    witness [Tetromino(I), Tetromino(J), Tetromino(L), Tetromino(O), Tetromino(S), Tetromino(T), Tetromino(Z)]

  /** A list of bags, as its type says. */
  lemma BagsAreBags(bags: seq<Bag>)
    ensures AllBags(bags)
  {
  }

  /** Every element of the list is a bag. */
  predicate AllBags(bags: seq<seq<Brick>>)
  {
    forall k :: 0 <= k < |bags| ==> IsBag(bags[k])
  }

  /** The bags laid end to end. */
  function Concat(bags: seq<seq<Brick>>): seq<Brick>
  {
    if bags == [] then [] else Concat(bags[..|bags| - 1]) + bags[|bags| - 1]
  }

  /** Appending a bag appends its pieces. */
  lemma ConcatPush(bags: seq<seq<Brick>>, bag: seq<Brick>)
    ensures Concat(bags + [bag]) == Concat(bags) + bag
    ensures AllBags(bags) && IsBag(bag) ==> AllBags(bags + [bag])
  {
    assert (bags + [bag])[..|bags|] == bags;
  }

  lemma AppendAssoc(a: seq<Brick>, b: seq<Brick>, c: seq<Brick>)
    ensures a + (b + c) == (a + b) + c
  {
  }

  /** A run of bags never holds the empty piece. */
  lemma ConcatNoNull(bags: seq<seq<Brick>>)
    requires AllBags(bags)
    ensures forall x :: x in Concat(bags) ==> x.Tetromino?
  {
    ConcatCounts(bags, NullBrick);
  }

  /** n bags laid end to end are 7n pieces long. */
  lemma {:induction false} ConcatLength(bags: seq<seq<Brick>>)
    requires AllBags(bags)
    ensures |Concat(bags)| == 7 * |bags|
  {
    if bags != [] {
      var n := |bags|;
      ConcatLength(bags[..n - 1]);
      BagLength(bags[n - 1]);
    }
  }

  /** The first n bags of a run of bags are its first 7n pieces. */
  lemma {:induction false} ConcatPrefix(bags: seq<seq<Brick>>, n: nat)
    requires AllBags(bags) && n <= |bags|
    ensures 7 * n <= |Concat(bags)|
    ensures Concat(bags[..n]) == Concat(bags)[..7 * n]
  {
    ConcatLength(bags);
    if n < |bags| {
      var m := |bags|;
      assert bags[..m - 1][..n] == bags[..n];
      ConcatPrefix(bags[..m - 1], n);
      ConcatLength(bags[..m - 1]);
    } else {
      assert bags[..n] == bags;
    }
  }

  /** Bag k of a run of bags is its pieces 7k to 7k + 6. */
  lemma ConcatBlock(bags: seq<seq<Brick>>, k: nat)
    requires AllBags(bags) && k < |bags|
    ensures 7 * (k + 1) <= |Concat(bags)|
    ensures Concat(bags)[7 * k..7 * (k + 1)] == bags[k]
  {
    ConcatPrefix(bags, k + 1);
    ConcatLength(bags[..k + 1]);
    ConcatLength(bags[..k]);
    assert bags[..k + 1][..k] == bags[..k];
    assert Concat(bags[..k + 1]) == Concat(bags[..k]) + bags[k];
  }

  /** n bags hold n pieces of each type and no empty piece. */
  lemma {:induction false} ConcatCounts(bags: seq<seq<Brick>>, b: Brick)
    requires AllBags(bags)
    ensures multiset(Concat(bags))[b] == if b.Tetromino? then |bags| else 0
  {
    if bags != [] {
      var n := |bags|;
      ConcatCounts(bags[..n - 1], b);
      BagCounts(bags[n - 1], b);
    }
  }

  /** The first 7n pieces of a run of bags hold each type exactly n times, and no piece is empty. */
  lemma Fairness(bags: seq<seq<Brick>>, n: nat, t: BrickType)
    requires AllBags(bags) && n <= |bags|
    ensures 7 * n <= |Concat(bags)|
    ensures multiset(Concat(bags)[..7 * n])[Tetromino(t)] == n
    ensures NullBrick !in Concat(bags)
  {
    ConcatPrefix(bags, n);
    ConcatCounts(bags[..n], Tetromino(t));
    ConcatCounts(bags, NullBrick);
  }

  /** 700 pieces from a run of bags give 100 of each type. */
  lemma SevenHundredDraws(bags: seq<seq<Brick>>, t: BrickType)
    requires AllBags(bags) && |bags| >= 100
    ensures |Concat(bags)| >= 700 && multiset(Concat(bags)[..700])[Tetromino(t)] == 100
  {
    Fairness(bags, 100, t);
  }

  /** An arbitrary permutation of a list: the game's shuffle. */
  method Shuffle(list: seq<Brick>) returns (r: seq<Brick>)
    ensures multiset(r) == multiset(list)
  {
    r :| multiset(r) == multiset(list);
  }

  class RandomBrickGenerator {
    /** One piece of each type, in declaration order. */
    const brickList: seq<Brick> := CreateAllBricks()
    /** The upcoming pieces, head first. */
    var nextBricks: seq<Brick>
    /** The bag most recently appended to the queue. */
    var currentBag: seq<Brick>
    /** Every piece handed out so far, in order. */
    ghost var drawn: seq<Brick>
    /** Every bag shuffled so far, in order. */
    ghost var bags: seq<Bag>

    /**
     * The queue holds 7 to 14 pieces, the current bag is the latest bag
     * shuffled, and the pieces handed out followed by the queue are the bags
     * shuffled so far, in order.
     */
    ghost predicate Valid()
      reads this
    {
      7 <= |nextBricks| <= 14 &&
      |bags| > 0 && currentBag == bags[|bags| - 1] && |currentBag| == 7 &&
      drawn + nextBricks == Concat(bags)
    }

    /** Two shuffled bags queued, nothing handed out. */
    constructor()
      ensures Valid() && drawn == []
      ensures |nextBricks| == 14 && |bags| == 2 && nextBricks[..7] == bags[0] && nextBricks[7..] == bags[1]
    {
      AllBricksIsBag();
      var bag := Shuffle(CreateAllBricks());
      BagLength(bag);
      currentBag := bag;
      nextBricks := bag;
      drawn := [];
      bags := [bag];
      new;
      ConcatPush([], bag);
      assert [] + [bag] == [bag];
      RefillBag();
    }

    /** Shuffles a fresh bag and appends it to the queue. */
    method RefillBag()
      modifies this
      ensures IsBag(currentBag) && |currentBag| == 7
      ensures nextBricks == old(nextBricks) + currentBag
      ensures bags == old(bags) + [currentBag] && drawn == old(drawn)
      ensures Concat(bags) == old(Concat(bags)) + currentBag
    {
      AllBricksIsBag();
      currentBag := Shuffle(brickList);
      BagLength(currentBag);
      ConcatPush(bags, currentBag);
      nextBricks := nextBricks + currentBag;
      bags := bags + [currentBag];
    }

    /**
     * Hands out the head of the queue, a real tetromino, and refills the
     * queue with a fresh bag when fewer than seven pieces remain.
     */
    method GetBrick() returns (b: Brick)
      requires Valid()
      modifies this
      ensures Valid()
      ensures b == old(nextBricks[0]) && b.Tetromino?
      ensures drawn == old(drawn) + [b]
      ensures |old(nextBricks)| > 7 ==> nextBricks == old(nextBricks[1..]) && currentBag == old(currentBag)
      ensures |old(nextBricks)| == 7 ==> nextBricks == old(nextBricks[1..]) + currentBag && IsBag(currentBag)
    {
      assert nextBricks[0].Tetromino? by {
        BagsAreBags(bags);
        ConcatNoNull(bags);
        assert nextBricks[0] in Concat(bags);
      }
      b := nextBricks[0];
      ghost var q := nextBricks;
      nextBricks := nextBricks[1..];
      drawn := drawn + [b];
      assert drawn + nextBricks == old(drawn) + q by {
        assert q == [q[0]] + q[1..];
      }
      if |nextBricks| < 7 {
        ghost var before := nextBricks;
        RefillBag();
        AppendAssoc(drawn, before, currentBag);
      }
    }

    /** The head of the queue, without taking it. */
    method GetNextBrick() returns (b: Brick)
      requires Valid()
      ensures b == nextBricks[0] && b.Tetromino?
    {
      BagsAreBags(bags);
      ConcatNoNull(bags);
      assert nextBricks[0] in Concat(bags);
      b := nextBricks[0];
    }

    /** Every 7-aligned block of the pieces handed out is a bag. */
    lemma DrawsAreFair(k: nat)
      requires Valid() && 7 * (k + 1) <= |drawn|
      ensures IsBag(drawn[7 * k..7 * (k + 1)])
    {
      BagsAreBags(bags);
      ConcatLength(bags);
      if |bags| <= k {
        assert false;
      }
      ConcatBlock(bags, k);
      assert Concat(bags)[7 * k..7 * (k + 1)] == drawn[7 * k..7 * (k + 1)];
    }

    /** The first 7n pieces handed out hold each type exactly n times. */
    lemma DrawsCount(n: nat, t: BrickType)
      requires Valid() && 7 * n <= |drawn|
      ensures multiset(drawn[..7 * n])[Tetromino(t)] == n
    {
      BagsAreBags(bags);
      ConcatLength(bags);
      if |bags| < n {
        assert false;
      }
      Fairness(bags, n, t);
      assert Concat(bags)[..7 * n] == drawn[..7 * n];
    }
  }
}
