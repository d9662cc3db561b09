/**
 * Page thumbnails of the legacy preprocessing step: page `i` (0-based) of document `doc` is
 * rendered to `out/doc_p{i+1:03d}.png` in one flat output directory, and every page is
 * rendered and saved, overwriting an existing file. Rendering itself is not modelled.
 */
module PreprocessingThumbnail {
  import opened Text
  import opened Paths
  import opened Docs

  /** `f"{doc_name}_p{n:03d}.png"`. */
  function PageFileName(docName: string, pageNumber: nat): (f: string)
    ensures f != [] && f[0] == (if docName == [] then '_' else docName[0])
  {
    docName + "_p" + Pad3(pageNumber) + ".png"
  }

  /** `os.path.join(output_dir, f"{doc_name}_p{index + 1:03d}.png")`. */
  function ThumbnailPath(outputDir: string, docName: string, index: nat): string {
    PathJoin(outputDir, PageFileName(docName, index + 1))
  }

  /** The thumbnail paths of the first `n` pages, in page order. */
  function ThumbnailPaths(outputDir: string, docName: string, n: nat): (ps: seq<string>)
    ensures |ps| == n
    ensures forall i :: 0 <= i < n ==> ps[i] == ThumbnailPath(outputDir, docName, i)
  {
    if n == 0 then [] else ThumbnailPaths(outputDir, docName, n - 1) + [ThumbnailPath(outputDir, docName, n - 1)]
  }

  /** Different page numbers give different file names for the same document. */
  lemma PageFileNameInjective(docName: string, m: nat, n: nat)
    requires PageFileName(docName, m) == PageFileName(docName, n)
    ensures m == n
  {
    var f, g := PageFileName(docName, m), PageFileName(docName, n);
    assert f[|docName| + 2..|f| - 4] == Pad3(m);
    assert g[|docName| + 2..|g| - 4] == Pad3(n);
    Pad3Injective(m, n);
  }

  /** Two different pages of a document never share a thumbnail path. */
  lemma ThumbnailPathsDistinct(outputDir: string, docName: string, i: nat, j: nat)
    requires i != j
    ensures ThumbnailPath(outputDir, docName, i) != ThumbnailPath(outputDir, docName, j)
  {
    var x, y := PageFileName(docName, i + 1), PageFileName(docName, j + 1);
    if x == y {
      PageFileNameInjective(docName, i + 1, j + 1);
    }
    PathJoinDistinct(outputDir, x, y);
  }

  /**
   * For a document name without `/` and an output directory without a trailing `/`, the
   * thumbnail lies directly in the output directory and is named `doc_pNNN.png`.
   */
  lemma ThumbnailLocation(outputDir: string, docName: string, index: nat)
    requires outputDir != [] && outputDir[|outputDir| - 1] != '/'
    requires forall k :: 0 <= k < |docName| ==> docName[k] != '/'
    ensures Dirname(ThumbnailPath(outputDir, docName, index)) == outputDir
    ensures Basename(ThumbnailPath(outputDir, docName, index)) == PageFileName(docName, index + 1)
  {
    var f := PageFileName(docName, index + 1);
    var tail := "_p" + Pad3(index + 1) + ".png";
    assert f == docName + tail;
    assert forall k :: 0 <= k < |tail| ==> tail[k] != '/' by {
      forall k | 0 <= k < |tail| ensures tail[k] != '/' {
        if 2 <= k < 2 + |Pad3(index + 1)| {
          assert tail[k] == Pad3(index + 1)[k - 2];
          assert IsDigit(Pad3(index + 1)[k - 2]);
        }
      }
    }
    assert Plain(f) by {
      forall k | 0 <= k < |f| ensures f[k] != '/' {
        if k >= |docName| {
          assert f[k] == tail[k - |docName|];
        }
      }
    }
    DirnameOfJoin(outputDir, f);
    BasenameOfJoin(outputDir, f);
  }

  /**
   * `create_thumbnails(document, doc_name, output_dir)` for a document of `pageCount` pages:
   * creates the output directory, then renders and saves every page, and returns the paths in
   * page order.
   */
  method CreateThumbnails(fs: FileSystem, pageCount: nat, docName: string, outputDir: string := "assets/images")
    returns (paths: seq<string>)
    modifies fs
    ensures paths == ThumbnailPaths(outputDir, docName, pageCount)
    ensures fs.dirs == old(fs.dirs) + {outputDir}
    ensures fs.files == old(fs.files) + Elements(paths)
    ensures fs.saves == old(fs.saves) + paths
  {
    fs.MakeDirs(outputDir);
    paths := [];
    for pageNum := 0 to pageCount
      invariant paths == ThumbnailPaths(outputDir, docName, pageNum)
      invariant fs.dirs == old(fs.dirs) + {outputDir}
      invariant fs.files == old(fs.files) + Elements(paths)
      invariant fs.saves == old(fs.saves) + paths
    {
      var outputPath := PathJoin(outputDir, PageFileName(docName, pageNum + 1));
      RecordSave(old(fs.files), old(fs.saves), paths, outputPath);
      fs.Save(outputPath);
      paths := paths + [outputPath];
    }
  }

  /** Every page is saved exactly once: the saved paths of one call are pairwise distinct. */
  lemma SavedOnce(outputDir: string, docName: string, n: nat, i: nat, j: nat)
    requires i < j < n
    ensures ThumbnailPaths(outputDir, docName, n)[i] != ThumbnailPaths(outputDir, docName, n)[j]
  {
    ThumbnailPathsDistinct(outputDir, docName, i, j);
  }
}
