/**
  `update_all_outputs`: collect the records of all feeds, and unless there
  are none, build the export tree once and write it to every output file.
 */
module Outputs {
  import opened Wrappers
  import opened Offers
  import opened Collection
  import opened PromXml

  /**
    The output files, each holding the tree last written to it. Writing a
    tree stands for `save_gzipped_xml`, which replaces the whole file. The
    `raw_feed_<id>.xml` copies that `load_feed` writes are not in `files`.
   */
  class OutputDirectory {
    var files: map<string, Element>

    constructor (initial: map<string, Element>)
      ensures files == initial
    {
      files := initial;
    }

    /** Replaces the content of `filename` by `tree`; other files keep theirs. */
    method SaveGzippedXml(tree: Element, filename: string)
      modifies this
      ensures files == old(files)[filename := tree]
    {
      files := files[filename := tree];
    }
  }

  /** The files after writing `tree` to each of `names` in turn. */
  function WriteAll(files: map<string, Element>, names: seq<string>, tree: Element): map<string, Element> {
    if names == [] then files
    else WriteAll(files, names[..|names| - 1], tree)[names[|names| - 1] := tree]
  }

  /**
    After the writes, every named file holds `tree`, every other file is as
    it was, and no other file appears.
   */
  lemma {:induction false} WriteAllMeaning(files: map<string, Element>, names: seq<string>, tree: Element)
    ensures WriteAll(files, names, tree).Keys == files.Keys + set n | n in names
    ensures forall f | f in names :: WriteAll(files, names, tree)[f] == tree
    ensures forall f | f in files && f !in names :: WriteAll(files, names, tree)[f] == files[f]
  {
    if names != [] {
      var front := names[..|names| - 1];
      WriteAllMeaning(files, front, tree);
      assert names == front + [names[|names| - 1]];
    }
  }

  /** Writing the same tree to a file name twice leaves the same files as writing it once. */
  lemma RepeatedNameWritesOnce(files: map<string, Element>, names: seq<string>, tree: Element)
    ensures WriteAll(files, names + names, tree) == WriteAll(files, names, tree)
  {
    WriteAllMeaning(files, names + names, tree);
    WriteAllMeaning(files, names, tree);
  }

  /** How a run ended. */
  datatype Outcome =
    | Crashed                  // an offer's first picture had no text: the exception ends the run
    | NothingWritten           // no record was kept
    | Written(tree: Element)   // `tree` was written to every output file

  method UpdateAllOutputs(dir: OutputDirectory, feeds: seq<Option<seq<RawOffer>>>,
                          outputFiles: seq<string>, parse: string -> Option<Float>)
    returns (outcome: Outcome)
    modifies dir
    ensures outcome.Crashed? <==> Collect(feeds, parse).Aborted?
    ensures outcome.NothingWritten? <==> Collect(feeds, parse) == Done([])
    ensures outcome.Written? ==> outcome.tree == PromTree(Collect(feeds, parse).items)
    ensures !outcome.Written? ==> dir.files == old(dir.files)
    ensures outcome.Written? ==> dir.files == WriteAll(old(dir.files), outputFiles, outcome.tree)
  {
    var run := CollectAllValidItems(feeds, parse);
    if run.Aborted? {
      return Crashed;
    }
    if run.items == [] {
      return NothingWritten;
    }
    var tree := BuildPromXml(run.items);
    for i := 0 to |outputFiles|
      invariant dir.files == WriteAll(old(dir.files), outputFiles[..i], tree)
    {
      assert outputFiles[..i + 1][..i] == outputFiles[..i];
      dir.SaveGzippedXml(tree, outputFiles[i]);
    }
    assert outputFiles[..|outputFiles|] == outputFiles;
    outcome := Written(tree);
  }

  /**
    When the collected records are written, every output file ends up
    holding all of them, in order, and the files that are not outputs keep
    their content.
   */
  lemma EveryOutputHoldsAllItems(files: map<string, Element>, outputFiles: seq<string>, items: seq<Item>)
    ensures forall f | f in outputFiles ::
      var written := WriteAll(files, outputFiles, PromTree(items));
      f in written && ReadOffers(written[f]) == Some(items)
    ensures forall f | f in files && f !in outputFiles ::
      var written := WriteAll(files, outputFiles, PromTree(items));
      f in written && written[f] == files[f]
  {
    WriteAllMeaning(files, outputFiles, PromTree(items));
    ReadPromTree(items);
  }
}
