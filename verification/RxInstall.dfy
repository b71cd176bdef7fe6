/** The loops of rx/rxsuper.c that enter a frame into a transition table, word by word. */
module RxInstall {
  import opened RxSyntax
  import opened RxCache
  import opened RxCacheOps
  import opened RxBitset

  ghost predicate InWord(w: Word, offset: nat, c: Byte) {
    offset <= c < offset + BITS && w[c - offset]
  }

  /** The characters of the word at `offset` of a set */
  ghost function WordMembers(w: Word, offset: nat): set<Byte> {
    set c: Byte | 0 <= c < 256 && InWord(w, offset, c)
  }

  /** Handed the word that holds a character, install_partial_transition covers the members of the set
      that share that word. */
  lemma WordMembersOf(ws: seq<Word>, b: Byte)
    requires |ws| == 8
    ensures WordMembers(ws[b / BITS], b / BITS * BITS) == WordOf(Members(ws), b)
  {
    var n := b / BITS;
    forall c: Byte ensures InWord(ws[n], n * BITS, c) <==> c in Members(ws) && SameWord(b, c) {
      if n * BITS <= c < n * BITS + BITS {
        assert c / BITS == n && c % BITS == c - n * BITS;
      }
    }
  }

  /** The inner loop of both: the frame goes to the characters of one word. */
  method InstallPartialTransition(table: array<Frame>, answer: Frame, w: Word, offset: nat)
    requires table.Length == 256 && offset + BITS <= 256
    modifies table
    ensures table[..] == Install(old(table[..]), answer, WordMembers(w, offset))
  {
    ghost var t := table[..];
    for k := 0 to BITS
      invariant forall c: nat :: c < 256 ==>
        table[c] == if offset <= c < offset + k && w[c - offset] then answer else t[c]
    {
      if w[k] {
        table[offset + k] := answer;
      }
    }
  }

  /** The first n words of a set have been entered. */
  ghost predicate Entered(t: seq<Frame>, t2: seq<Frame>, answer: Frame, ws: seq<Word>, n: nat) {
    && |t| == |t2| == 256 && |ws| == 8
    && forall c: Byte :: t2[c] == if c / BITS < n && ws[c / BITS][c % BITS] then answer else t[c]
  }

  lemma EnteredMore(t: seq<Frame>, t1: seq<Frame>, t2: seq<Frame>, answer: Frame, ws: seq<Word>, n: nat)
    requires n < 8 && Entered(t, t1, answer, ws, n) && |t2| == 256
    requires t2 == Install(t1, answer, WordMembers(ws[n], n * BITS))
    ensures Entered(t, t2, answer, ws, n + 1)
  {
    forall c: Byte ensures t2[c] == if c / BITS < n + 1 && ws[c / BITS][c % BITS] then answer else t[c] {
      if c / BITS == n {
        assert c - n * BITS == c % BITS;
      }
    }
  }

  /** install_transition: a word without characters is passed over, and the others go bit by bit. */
  method InstallTransition(table: array<Frame>, answer: Frame, trcset: array<Word>)
    requires table.Length == 256 && trcset.Length == 8
    modifies table
    ensures table[..] == Install(old(table[..]), answer, Members(trcset[..]))
  {
    ghost var t := table[..];
    var none: Word := seq(BITS, _ => false);
    for n := 0 to 8
      invariant Entered(t, table[..], answer, trcset[..], n)
    {
      ghost var t1 := table[..];
      if trcset[n] == none {
        assert WordMembers(trcset[n], n * BITS) == {};
      } else {
        InstallPartialTransition(table, answer, trcset[n], n * BITS);
      }
      EnteredMore(t, t1, table[..], answer, trcset[..], n);
    }
  }
}
