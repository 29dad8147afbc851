/** The filters of the advanced search page (`src/pages/SearchPage.tsx`): a genre
 *  checkbox toggles the genre in the selection, and the year menu offers the last thirty
 *  years. */
module SearchPage {

  import opened Seqs

  /** `handleGenreToggle`: a selected genre is removed (every copy of it), any other one
   *  is appended. */
  function ToggleGenre(selected: seq<string>, genre: string): seq<string>
  {
    if genre in selected then Filter(selected, g => g != genre) else selected + [genre]
  }

  /** After a toggle the genre is selected exactly when it was not before, and every
   *  other genre keeps its membership. */
  lemma ToggleMembership(selected: seq<string>, genre: string)
    ensures genre in ToggleGenre(selected, genre) <==> genre !in selected
    ensures forall g :: g != genre ==> (g in ToggleGenre(selected, genre) <==> g in selected)
  {
    FilterMembers(selected, g => g != genre);
  }

  /** Adding puts the genre last; removing keeps the others in their order. */
  lemma ToggleOrder(selected: seq<string>, genre: string)
    ensures genre !in selected ==> ToggleGenre(selected, genre) == selected + [genre]
    ensures genre in selected ==> IsSubsequence(ToggleGenre(selected, genre), selected)
  {
    FilterIsSubsequence(selected, g => g != genre);
  }

  /** A selection without duplicates stays without duplicates. */
  lemma ToggleKeepsNoDuplicates(selected: seq<string>, genre: string)
    requires NoDuplicates(selected)
    ensures NoDuplicates(ToggleGenre(selected, genre))
  {
    if genre in selected {
      FilterNoDuplicates(selected, g => g != genre);
    } else {
      var r := selected + [genre];
      forall i, j | 0 <= i < j < |r|
        ensures r[i] != r[j]
      {
        if j == |selected| {
          assert r[i] == selected[i];
        }
      }
    }
  }

  /** Checking and then unchecking a genre restores the selection. */
  lemma ToggleTwice(selected: seq<string>, genre: string)
    requires genre !in selected
    ensures ToggleGenre(ToggleGenre(selected, genre), genre) == selected
  {
    var p := (g: string) => g != genre;
    assert genre in selected + [genre];
    FilterAppend(selected, [genre], p);
    FilterAll(selected, p);
    assert Filter([genre], p) == [];
  }

  /** `years`: `2024 - i` for the first thirty `i`. */
  function Years(): seq<int>
  {
    seq(30, i requires 0 <= i < 30 => 2024 - i)
  }

  /** Thirty years, from 2024 down to 1995, newest first. */
  lemma YearsRange()
    ensures |Years()| == 30 && Years()[0] == 2024 && Years()[29] == 1995
    ensures forall i, j :: 0 <= i < j < 30 ==> Years()[i] > Years()[j]
    ensures forall y :: y in Years() <==> 1995 <= y <= 2024
  {
    var ys := Years();
    forall y | 1995 <= y <= 2024
      ensures y in ys
    {
      assert ys[2024 - y] == y;
    }
  }
}
