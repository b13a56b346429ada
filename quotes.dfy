/**
  Quotes: how each version turns the paragraphs of the quotes document (or the
  lines of the quotes file) into the one quote it speaks. Reading the file is
  outside the model: its contents arrive as a sequence of strings, and the
  index that `random.choice` draws arrives as a parameter.
 */
module Quotes {
  import opened Text

  /** The list comprehension `[p for p in paragraphs if p.strip()]`: the
      paragraphs that are not blank, in their original (unstripped) form. */
  function NonBlank(paras: seq<string>): (r: seq<string>)
    ensures |r| <= |paras|
  {
    if paras == [] then []
    else (if Strip(paras[0]) != [] then [paras[0]] else []) + NonBlank(paras[1..])
  }

  /** The filter keeps exactly the paragraphs that are not blank. */
  lemma {:induction false} NonBlankMembers(paras: seq<string>)
    ensures forall p :: p in NonBlank(paras) <==> p in paras && Strip(p) != []
  {
    if paras != [] {
      NonBlankMembers(paras[1..]);
      assert paras == [paras[0]] + paras[1..];
    }
  }

  /** Filtering distributes over concatenation, so it keeps paragraph order. */
  lemma {:induction false} NonBlankAppend(a: seq<string>, b: seq<string>)
    ensures NonBlank(a + b) == NonBlank(a) + NonBlank(b)
  {
    if a == [] {
      assert a + b == b;
    } else {
      assert (a + b)[0] == a[0];
      assert (a + b)[1..] == a[1..] + b;
      NonBlankAppend(a[1..], b);
    }
  }

  /** Filtering twice removes nothing more. */
  lemma {:induction false} NonBlankIdempotent(paras: seq<string>)
    ensures NonBlank(NonBlank(paras)) == NonBlank(paras)
  {
    if paras != [] {
      var head := if Strip(paras[0]) != [] then [paras[0]] else [];
      NonBlankAppend(head, NonBlank(paras[1..]));
      NonBlankIdempotent(paras[1..]);
      if head != [] {
        assert head[1..] == [];
      }
    }
  }

  /** A document without a non-blank paragraph offers nothing to choose from. */
  lemma {:induction false} AllBlankGivesNone(paras: seq<string>)
    requires forall k :: 0 <= k < |paras| ==> AllSpace(paras[k])
    ensures NonBlank(paras) == []
  {
    if paras != [] {
      AllBlankGivesNone(paras[1..]);
    }
  }

  /** A bank whose quotes are already clean: each is non-empty and has no
      surrounding whitespace. */
  predicate Clean(paras: seq<string>) {
    forall k :: 0 <= k < |paras| ==> paras[k] != [] && Trimmed(paras[k])
  }

  /** Filtering keeps a clean bank as it is. */
  lemma {:induction false} CleanIsKept(paras: seq<string>)
    requires Clean(paras)
    ensures NonBlank(paras) == paras
  {
    if paras != [] {
      TrimmedIsFixed(paras[0]);
      assert Clean(paras[1..]) by {
        forall k | 0 <= k < |paras[1..]| ensures paras[1..][k] != [] && Trimmed(paras[1..][k]) {
          assert paras[1..][k] == paras[k + 1];
        }
      }
      CleanIsKept(paras[1..]);
      assert [paras[0]] + paras[1..] == paras;
    }
  }

  /** `get_random_quote` of v1.2 and the choice in `read_quote` of v1.0 and
      v1.1: `random.choice(quotes).strip()` where `quotes` is the filtered
      list and `i` the index the choice draws. The quote is the strip of some
      paragraph, non-empty and without surrounding whitespace. */
  function ChooseQuote(paras: seq<string>, i: nat): (q: string)
    requires i < |NonBlank(paras)|
    ensures q != [] && Trimmed(q)
    ensures exists p :: p in paras && Strip(p) == q
  {
    var p := NonBlank(paras)[i];
    NonBlankMembers(paras);
    assert p in NonBlank(paras);
    Strip(p)
  }

  /** From a clean bank the quote drawn is the entry at the drawn index. */
  lemma ChooseFromClean(paras: seq<string>, i: nat)
    requires Clean(paras) && i < |paras|
    ensures i < |NonBlank(paras)| && ChooseQuote(paras, i) == paras[i]
  {
    CleanIsKept(paras);
    TrimmedIsFixed(paras[i]);
  }

  /** `read_quote` of v1: `random.choice(file.readlines()).strip()`. The lines
      are not filtered, so the quote is the strip of some line and may be
      empty. */
  function ChooseLine(lines: seq<string>, i: nat): (q: string)
    requires i < |lines|
    ensures Trimmed(q)
    ensures exists l :: l in lines && Strip(l) == q
  {
    Strip(lines[i])
  }

  /** A file holding a blank line makes v1 speak an empty quote. */
  lemma BlankLineGivesEmptyQuote()
    ensures ChooseLine(["Breathe.\n", "\n"], 1) == []
  {
    var line := "\n";
    assert AllSpace(line) by {
      assert IsSpace(line[0]);
    }
  }
}
