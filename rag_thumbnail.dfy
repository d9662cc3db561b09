/**
 * Page thumbnails of the ingestion pipeline: page `i` (0-based) of document `doc` is rendered
 * to `base/doc/page_{i+1:03d}.png`, and a page whose file already exists is not rendered again.
 * Rendering itself is not modelled; saving an image adds its path to the filesystem.
 */
module RagThumbnail {
  import opened Text
  import opened Paths
  import opened Docs

  /** `f"page_{n:03d}.png"`. */
  function PageFileName(pageNumber: nat): (f: string)
    ensures Plain(f) && f[0] == 'p'
  {
    "page_" + Pad3(pageNumber) + ".png"
  }

  /** `os.path.join(os.path.join(base_output_dir, doc_name), f"page_{index + 1:03d}.png")`. */
  function ThumbnailPath(baseDir: string, docName: string, index: nat): string {
    PathJoin(PathJoin(baseDir, docName), PageFileName(index + 1))
  }

  /** Different page numbers give different file names. */
  lemma PageFileNameInjective(m: nat, n: nat)
    requires PageFileName(m) == PageFileName(n)
    ensures m == n
  {
    var f, g := PageFileName(m), PageFileName(n);
    assert f[5..|f| - 4] == Pad3(m);
    assert g[5..|g| - 4] == Pad3(n);
    Pad3Injective(m, n);
  }

  /** Two different pages never share a thumbnail path. */
  lemma ThumbnailPathsDistinct(baseDir: string, docName: string, i: nat, j: nat)
    requires i != j
    ensures ThumbnailPath(baseDir, docName, i) != ThumbnailPath(baseDir, docName, j)
  {
    var x, y := PageFileName(i + 1), PageFileName(j + 1);
    if x == y {
      PageFileNameInjective(i + 1, j + 1);
    }
    PathJoinDistinct(PathJoin(baseDir, docName), x, y);
  }

  /** The thumbnail paths of the first `n` pages, in page order. */
  function ThumbnailPaths(baseDir: string, docName: string, n: nat): (ps: seq<string>)
    ensures |ps| == n
    ensures forall i :: 0 <= i < n ==> ps[i] == ThumbnailPath(baseDir, docName, i)
  {
    if n == 0 then [] else ThumbnailPaths(baseDir, docName, n - 1) + [ThumbnailPath(baseDir, docName, n - 1)]
  }

  /** A thumbnail path is never its own output directory (it is strictly longer). */
  lemma ThumbnailNotOutputDir(baseDir: string, docName: string, index: nat)
    ensures ThumbnailPath(baseDir, docName, index) != PathJoin(baseDir, docName)
  {
    var d, f := PathJoin(baseDir, docName), PageFileName(index + 1);
    assert |PathJoin(d, f)| > |d|;
  }

  /** The file name of a thumbnail path is `page_NNN.png`. */
  lemma ThumbnailFileName(baseDir: string, docName: string, index: nat)
    ensures Basename(ThumbnailPath(baseDir, docName, index)) == PageFileName(index + 1)
  {
    BasenameOfJoin(PathJoin(baseDir, docName), PageFileName(index + 1));
  }

  /** The elements of `ps` not in `present`, in order: the pages that get rendered. */
  function Missing(ps: seq<string>, present: set<string>): (r: seq<string>)
    ensures forall p :: p in r <==> p in ps && p !in present
  {
    if ps == [] then []
    else Missing(ps[..|ps| - 1], present) + (if ps[|ps| - 1] in present then [] else [ps[|ps| - 1]])
  }

  lemma MissingAppend(ps: seq<string>, p: string, present: set<string>)
    ensures Missing(ps + [p], present) == Missing(ps, present) + (if p in present then [] else [p])
  {
    assert (ps + [p])[..|ps|] == ps;
  }

  /** Dropping the present paths keeps a duplicate-free list duplicate-free. */
  lemma {:induction false} MissingDistinct(ps: seq<string>, present: set<string>)
    requires Distinct(ps)
    ensures Distinct(Missing(ps, present))
  {
    if ps != [] {
      var init, last := ps[..|ps| - 1], ps[|ps| - 1];
      assert Distinct(init);
      MissingDistinct(init, present);
      assert last !in init;
    }
  }

  /** The thumbnail paths of a document are pairwise distinct. */
  lemma ThumbnailPathsAllDistinct(baseDir: string, docName: string, n: nat)
    ensures Distinct(ThumbnailPaths(baseDir, docName, n))
  {
    var ps := ThumbnailPaths(baseDir, docName, n);
    forall i, j | 0 <= i < j < n ensures ps[i] != ps[j] {
      ThumbnailPathsDistinct(baseDir, docName, i, j);
    }
  }

  /** Every page that gets rendered is rendered once: the saved list has no repeats. */
  lemma RenderedOnce(baseDir: string, docName: string, n: nat, present: set<string>)
    ensures Distinct(Missing(ThumbnailPaths(baseDir, docName, n), present))
  {
    ThumbnailPathsAllDistinct(baseDir, docName, n);
    MissingDistinct(ThumbnailPaths(baseDir, docName, n), present);
  }

  /**
   * After the call every returned path exists: it either existed before or was rendered
   * (with the final file set as `CreateThumbnails` leaves it).
   */
  lemma AllExistAfter(ps: seq<string>, files0: set<string>, dirs0: set<string>, dir: string)
    ensures forall p :: p in ps ==> p in files0 + Elements(Missing(ps, files0 + dirs0)) || p in dirs0 + {dir}
  {
  }

  /**
   * The path of page `i` is neither one of the earlier pages' paths nor the output directory.
   */
  lemma NextPathFresh(baseDir: string, docName: string, i: nat)
    ensures ThumbnailPath(baseDir, docName, i) !in ThumbnailPaths(baseDir, docName, i)
    ensures ThumbnailPath(baseDir, docName, i) != PathJoin(baseDir, docName)
  {
    var ps := ThumbnailPaths(baseDir, docName, i);
    forall k | 0 <= k < i ensures ps[k] != ThumbnailPath(baseDir, docName, i) {
      ThumbnailPathsDistinct(baseDir, docName, k, i);
    }
    ThumbnailNotOutputDir(baseDir, docName, i);
  }

  /**
   * One loop step: a path not seen before and different from the output directory exists
   * exactly when it existed before the call; recording it extends the saved list and the
   * file set only when it is new.
   */
  lemma {:induction false} RenderStep(done: seq<string>, p: string, files0: set<string>, dirs0: set<string>, dir: string, saves0: seq<string>)
    requires p !in done && p != dir
    ensures (p in files0 + Elements(Missing(done, files0 + dirs0)) || p in dirs0 + {dir}) <==> p in files0 + dirs0
    ensures p in files0 + dirs0 ==> Missing(done + [p], files0 + dirs0) == Missing(done, files0 + dirs0)
    ensures p !in files0 + dirs0 ==>
      saves0 + Missing(done + [p], files0 + dirs0) == saves0 + Missing(done, files0 + dirs0) + [p]
    ensures p !in files0 + dirs0 ==>
      files0 + Elements(Missing(done + [p], files0 + dirs0)) == files0 + Elements(Missing(done, files0 + dirs0)) + {p}
  {
    MissingAppend(done, p, files0 + dirs0);
    if p !in files0 + dirs0 {
      RecordSave(files0, saves0, Missing(done, files0 + dirs0), p);
    }
  }

  /** The body of the page loop: render and save the page unless its path already exists. */
  method RenderIfAbsent(fs: FileSystem, outputPath: string)
    modifies fs
    ensures outputPath in old(fs.files) || outputPath in old(fs.dirs) ==>
      fs.files == old(fs.files) && fs.saves == old(fs.saves)
    ensures !(outputPath in old(fs.files) || outputPath in old(fs.dirs)) ==>
      fs.files == old(fs.files) + {outputPath} && fs.saves == old(fs.saves) + [outputPath]
    ensures fs.dirs == old(fs.dirs)
  {
    if !(outputPath in fs.files || outputPath in fs.dirs) {
      fs.Save(outputPath);
    }
  }

  /**
   * `create_thumbnails(document, doc_name, base_output_dir)` for a document of `pageCount`
   * pages: returns one path per page in page order; renders and saves only the pages whose
   * path did not exist (as a file or a directory) before the call. The output directory is
   * created first; no thumbnail path coincides with it.
   */
  method CreateThumbnails(fs: FileSystem, pageCount: nat, docName: string, baseDir: string := "assets/images")
    returns (paths: seq<string>)
    modifies fs
    ensures paths == ThumbnailPaths(baseDir, docName, pageCount)
    ensures fs.dirs == old(fs.dirs) + {PathJoin(baseDir, docName)}
    ensures fs.files == old(fs.files) + Elements(Missing(paths, old(fs.files) + old(fs.dirs)))
    ensures fs.saves == old(fs.saves) + Missing(paths, old(fs.files) + old(fs.dirs))
  {
    var outputDir := PathJoin(baseDir, docName);
    fs.MakeDirs(outputDir);
    ghost var present := old(fs.files) + old(fs.dirs);
    paths := [];
    for i := 0 to pageCount
      invariant paths == ThumbnailPaths(baseDir, docName, i)
      invariant fs.dirs == old(fs.dirs) + {outputDir}
      invariant fs.files == old(fs.files) + Elements(Missing(paths, present))
      invariant fs.saves == old(fs.saves) + Missing(paths, present)
    {
      var outputPath := PathJoin(outputDir, PageFileName(i + 1));
      NextPathFresh(baseDir, docName, i);
      RenderStep(paths, outputPath, old(fs.files), old(fs.dirs), outputDir, old(fs.saves));
      RenderIfAbsent(fs, outputPath);
      paths := paths + [outputPath];
    }
  }
}
