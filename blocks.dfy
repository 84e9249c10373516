/**
 * The document-analysis blocks the table processor reads, and `GetCellText`, which collects
 * the words a cell's `CHILD` relationships point to.
 */
module Blocks {
  import opened Wrappers
  import opened Text
  import opened Lists

  datatype BlockType = Page | Line | Word | Table | Cell | SelectionElement | KeyValueSet | Other

  /** A typed edge to a list of block ids; the processor only follows type "CHILD". */
  datatype Relationship = Relationship(relType: string, ids: seq<string>)

  /**
   * The fields of a block the processor reads. `rowIndex` and `columnIndex` are 1-based and
   * meaningful for cells; `text` is the word's text ("" where the service sends none); a block
   * without relationships has the empty list.
   */
  datatype Block = Block(
    id: string,
    blockType: BlockType,
    page: int,
    rowIndex: int,
    columnIndex: int,
    text: string,
    relationships: seq<Relationship>)

  const ChildRelationship := "CHILD"

  function BlockId(b: Block): string { b.id }

  /** `_blocks.FirstOrDefault(b => b.Id == id)`. */
  function FindBlock(blocks: seq<Block>, id: string): Option<Block>
  {
    match FirstIndexOf(blocks, BlockId, id)
    case Some(i) => Some(blocks[i])
    case None => None
  }

  /** What one referenced id adds: the text of the block it names, if that block is a WORD. */
  function WordOf(blocks: seq<Block>, id: string): (r: seq<string>)
    ensures |r| <= 1
  {
    match FindBlock(blocks, id)
    case Some(b) => if b.blockType == Word then [b.text] else []
    case None => []
  }

  /** The words the ids add, in id order. */
  function WordsOfIds(blocks: seq<Block>, ids: seq<string>): seq<string>
  {
    if ids == [] then []
    else WordsOfIds(blocks, ids[..|ids| - 1]) + WordOf(blocks, ids[|ids| - 1])
  }

  /** The words a relationship list adds: only "CHILD" relationships are followed. */
  function CellWords(blocks: seq<Block>, rels: seq<Relationship>): seq<string>
  {
    if rels == [] then []
    else
      var last := rels[|rels| - 1];
      CellWords(blocks, rels[..|rels| - 1])
      + if last.relType == ChildRelationship then WordsOfIds(blocks, last.ids) else []
  }

  /** The text `GetCellText` builds: the collected words joined with single spaces. */
  function CellText(blocks: seq<Block>, cell: Block): string
  {
    Join(" ", CellWords(blocks, cell.relationships))
  }

  /**
   * `GetCellText`: walks the relationships and their ids in order, collecting the text of the
   * WORD blocks found, and joins the words with spaces.
   */
  method GetCellText(blocks: seq<Block>, cell: Block) returns (text: string)
    ensures text == CellText(blocks, cell)
    ensures cell.relationships == [] ==> text == ""
  {
    var words: seq<string> := [];
    var rels := cell.relationships;
    var i := 0;
    while i < |rels|
      invariant 0 <= i <= |rels|
      invariant words == CellWords(blocks, rels[..i])
    {
      var rel := rels[i];
      if rel.relType == ChildRelationship {
        var j := 0;
        while j < |rel.ids|
          invariant 0 <= j <= |rel.ids|
          invariant words == CellWords(blocks, rels[..i]) + WordsOfIds(blocks, rel.ids[..j])
        {
          var child := FindBlock(blocks, rel.ids[j]);
          ghost var before := words;
          if child.Some? && child.value.blockType == Word {
            words := words + [child.value.text];
          }
          assert words == before + WordOf(blocks, rel.ids[j]);
          assert rel.ids[..j + 1][..j] == rel.ids[..j];
          j := j + 1;
        }
        assert rel.ids[..j] == rel.ids;
      }
      assert rels[..i + 1][..i] == rels[..i];
      i := i + 1;
    }
    assert rels[..i] == rels;
    text := Join(" ", words);
  }

  /** The id `id` of some "CHILD" relationship in `rels` names a WORD block whose text is `w`. */
  predicate IsChildWord(blocks: seq<Block>, rels: seq<Relationship>, w: string)
  {
    exists k, j :: 0 <= k < |rels| && rels[k].relType == ChildRelationship
                   && 0 <= j < |rels[k].ids| && WordOf(blocks, rels[k].ids[j]) == [w]
  }

  /**
   * The words of a cell are exactly the texts of the WORD blocks its "CHILD" relationships
   * reference: unknown ids, other block types and other relationship types add nothing.
   */
  lemma {:induction false} CellWordsAreChildWords(blocks: seq<Block>, rels: seq<Relationship>)
    ensures forall w :: w in CellWords(blocks, rels) <==> IsChildWord(blocks, rels, w)
  {
    if rels != [] {
      var init, last := rels[..|rels| - 1], rels[|rels| - 1];
      CellWordsAreChildWords(blocks, init);
      forall w ensures w in CellWords(blocks, rels) <==> IsChildWord(blocks, rels, w) {
        if last.relType == ChildRelationship {
          IdWords(blocks, last.ids, w);
          if w in WordsOfIds(blocks, last.ids) {
            var j :| 0 <= j < |last.ids| && WordOf(blocks, last.ids[j]) == [w];
            assert rels[|rels| - 1] == last;
          }
        }
        if IsChildWord(blocks, rels, w) {
          var k, j :| 0 <= k < |rels| && rels[k].relType == ChildRelationship
                      && 0 <= j < |rels[k].ids| && WordOf(blocks, rels[k].ids[j]) == [w];
          if k < |rels| - 1 {
            assert init[k] == rels[k];
            assert IsChildWord(blocks, init, w);
          } else {
            IdWords(blocks, last.ids, w);
          }
        }
        if IsChildWord(blocks, init, w) {
          var k, j :| 0 <= k < |init| && init[k].relType == ChildRelationship
                      && 0 <= j < |init[k].ids| && WordOf(blocks, init[k].ids[j]) == [w];
          assert rels[k] == init[k];
        }
      }
    }
  }

  lemma {:induction false} IdWords(blocks: seq<Block>, ids: seq<string>, w: string)
    ensures w in WordsOfIds(blocks, ids)
            <==> exists j :: 0 <= j < |ids| && WordOf(blocks, ids[j]) == [w]
  {
    if ids != [] {
      var init, last := ids[..|ids| - 1], ids[|ids| - 1];
      IdWords(blocks, init, w);
      var ws := WordOf(blocks, last);
      assert WordsOfIds(blocks, ids) == WordsOfIds(blocks, init) + ws;
      assert w in ws <==> ws == [w];
      assert forall j :: 0 <= j < |init| ==> init[j] == ids[j];
    }
  }
}
