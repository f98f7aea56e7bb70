/**
 * Report: the LaTeX summary report of src/gmprocess/io/report.py.
 *
 * The templates are kept as lists of pieces (text without `[`, and bracket
 * words such as `[box]` or the placeholders), so that Python's
 * `str.replace` on the whole template can be computed piece by piece.
 * `TitleBlock` and `StreamBlock` do exactly the replacements of the source, in
 * its order; `TitleFilled` and `StreamFilled` say what text they produce.
 */
module Report {
  import opened Wrappers
  import opened Text
  import opened Latex
  import opened Ordering

  const Preamble: string :=
    "\n" +
    "\\documentclass[9pt]{extarticle}\n" +
    "\n" +
    "% Allows for 9pt article class\n" +
    "\\usepackage{extsizes}\n" +
    "\n" +
    "\\usepackage[T1]{fontenc}\n" +
    "\n" +
    "\\usepackage{graphicx}\n" +
    "\\usepackage{tikz}\n" +
    "\n" +
    "% grffile allows for multiple dots i" +
    "n image file name\n" +
    "\\usepackage{grffile}\n" +
    "\n" +
    "% Turn off default page numbers\n" +
    "% \\usepackage{nopageno}\n" +
    "\n" +
    "% Needed for table rules\n" +
    "\\usepackage{booktabs}\n" +
    "\n" +
    "\\usepackage[english]{babel}\n" +
    "\n" +
    "\\usepackage[letterpaper, portrait]{g" +
    "eometry}\n" +
    "\n" +
    "\\geometry{\n" +
    "   left=0.75in,\n" +
    "   top=0.0in,\n" +
    "   total={7in,10.5in},\n" +
    "   includeheadfoot\n" +
    "}\n" +
    "\n" +
    "\\setlength\\parindent{0pt}\n" +
    "\n" +
    "% Use custom headers\n" +
    "\\usepackage{fancyhdr}\n" +
    "\\pagestyle{fancy}\n" +
    "\\fancyhf{}\n" +
    "\\renewcommand{\\headrulewidth}{0pt}\n" +
    "\\cfoot{\\thepage}\n" +
    "%%\\lfoot{\\today}\n" +
    "\n" +
    "\\tikzstyle{box} = [\n" +
    "    draw=blue, fill=blue!20, thick,\n" +
    "    rectangle, rounded corners]\n" +
    "\n" +
    "\\begin{document}\n"

  const Postamble: string := "\n\\end{document}\n"

  const NewPage: string := "\\newpage\n\n"

  /* The bracket words of the templates: the placeholders the report fills
     in, and the LaTeX options that merely look like them. */
  const MapTag: string := Bracket("MAPPATH")
  const VersionTag: string := Bracket("VERSION")
  const MoveoutPageTag: string := Bracket("MOVEOUT_PAGE")
  const MoveoutPathTag: string := Bracket("MOVEOUTPATH")
  const EventTag: string := Bracket("EVENT")
  const StationTag: string := Bracket("STATION")
  const PlotTag: string := Bracket("PLOTPATH")
  const WidthOpt: string := Bracket("width=\\textwidth")
  const HeightOpt: string := Bracket("height=0.65\\textheight")
  const OverlayOpt: string := Bracket("remember picture,overlay")
  const BoxOpt: string := Bracket("box")
  const PosOpt: string := Bracket("pos=.5")

  /* TITLEBLOCK, cut at its placeholders. */
  const TitleHead: seq<string> :=
    ["\n\\begin{center}\n\n\\vfill\n\n", "\\large Summary Report\n\n",
     "\\vspace{1cm}\n\ngmprocess\n\n", "\\vspace{1cm}\n\nCode version: "]
  const TitleMid: seq<string> :=
    ["\n\n\\vspace{1cm}\n\n\\today\n\n", "\\vspace{1cm}\n\n\\includegraphics",
     WidthOpt, "\n    {"]
  const TitleMap: seq<string> := ["}\n\n"]
  const TitleTail: seq<string> := ["\n\n\\end{center}\n\n\\vfill\n\n", "\\newpage\n\n\n\n"]

  const TitleTemplate: string :=
    Concat(TitleHead + [VersionTag] + TitleMid + [MapTag] + TitleMap + [MoveoutPageTag] + TitleTail)

  /* MOVEOUT_PAGE_TEX, cut at its placeholder. */
  const MoveoutHead: seq<string> := ["\n\\includegraphics", WidthOpt, "\n    {"]
  const MoveoutTail: seq<string> := ["}\n"]

  const MoveoutPageTex: string := Concat(MoveoutHead + [MoveoutPathTag] + MoveoutTail)

  /* STREAMBLOCK, cut at its placeholders. */
  const StreamHead: seq<string> :=
    ["\n\\begin{tikzpicture}", OverlayOpt, "\n   \\draw", BoxOpt,
     " (0, 0.5) rectangle (9, 1.0) node", PosOpt, "\n       {\\normalsize "]
  const StreamMid: seq<string> :=
    ["};\n   \\draw", BoxOpt, " (10, 0.5) rectangle (17, 1.0) node", PosOpt,
     "\n       {\\normalsize "]
  const StreamPlot: seq<string> :=
    ["};\n\\end{tikzpicture}\n\n", "\\includegraphics", HeightOpt, "\n    {"]
  const StreamTail: seq<string> := ["}\n\n\n"]

  const StreamTemplate: string :=
    Concat(StreamHead + [EventTag] + StreamMid + [StationTag] + StreamPlot + [PlotTag] + StreamTail)

  /** The text put in place of the provenance table when it cannot be built. */
  const ProvFallback: string :=
    "Provenance could not be tabulated; t" +
    "his should only happen when the ``an" +
    "y_trace_failures'' option is False b" +
    "ecause this allows the traces to hav" +
    "e a different number of entries, pre" +
    "venting table construction."

  const TitleTags: seq<string> := [MapTag, VersionTag, MoveoutPageTag, MoveoutPathTag]
  const StreamTags: seq<string> := [PlotTag, EventTag, StationTag]

  lemma TagsClosed()
    ensures AllClosed(TitleTags) && AllClosed(StreamTags)
  {
    TitleTagsClosed();
    StreamTagsClosed();
  }

  lemma TitleTagsClosed()
    ensures Closed(MapTag) && Closed(VersionTag) && Closed(MoveoutPageTag) && Closed(MoveoutPathTag)
  {
    MapTagsClosed();
    MoveoutTagsClosed();
  }

  lemma MapTagsClosed()
    ensures Closed(MapTag) && Closed(VersionTag)
  {
    BracketClosed("MAPPATH");
    BracketClosed("VERSION");
  }

  lemma MoveoutTagsClosed()
    ensures Closed(MoveoutPageTag) && Closed(MoveoutPathTag)
  {
    BracketClosed("MOVEOUT_PAGE");
    BracketClosed("MOVEOUTPATH");
  }

  lemma StreamTagsClosed()
    ensures Closed(EventTag) && Closed(StationTag) && Closed(PlotTag)
  {
    BracketClosed("EVENT");
    BracketClosed("STATION");
    BracketClosed("PLOTPATH");
  }

  lemma TagsDistinct()
    ensures MapTag != VersionTag && MapTag != MoveoutPageTag && MapTag != MoveoutPathTag
    ensures VersionTag != MoveoutPageTag && VersionTag != MoveoutPathTag
    ensures MoveoutPageTag != MoveoutPathTag
    ensures PlotTag != EventTag && PlotTag != StationTag && EventTag != StationTag
  {
    assert MapTag[1] == 'M' && VersionTag[1] == 'V' && EventTag[1] == 'E' && StationTag[1] == 'S';
    assert PlotTag[1] == 'P';
    assert |MapTag| == 9 && |MoveoutPageTag| == 14 && |MoveoutPathTag| == 13;
  }

  lemma OptionsClosed()
    ensures Closed(WidthOpt) && Closed(HeightOpt) && Closed(OverlayOpt) && Closed(BoxOpt) && Closed(PosOpt)
  {
    SizeOptionsClosed();
    DrawOptionsClosed();
  }

  lemma SizeOptionsClosed()
    ensures Closed(WidthOpt) && Closed(HeightOpt)
  {
    BracketClosed("width=\\textwidth");
    BracketClosed("height=0.65\\textheight");
  }

  lemma DrawOptionsClosed()
    ensures Closed(OverlayOpt) && Closed(BoxOpt) && Closed(PosOpt)
  {
    BracketClosed("remember picture,overlay");
    BracketClosed("box");
    BracketClosed("pos=.5");
  }

  /** Each option word differs from each placeholder (by its length). */
  lemma OptionsNotTags(w: string)
    requires w in [WidthOpt, HeightOpt, OverlayOpt, BoxOpt, PosOpt]
    ensures w !in TitleTags && w !in StreamTags
  {
    assert |WidthOpt| == 18 && |HeightOpt| == 24 && |OverlayOpt| == 26 && |BoxOpt| == 5 && |PosOpt| == 8;
    assert |MapTag| == 9 && |VersionTag| == 9 && |MoveoutPageTag| == 14 && |MoveoutPathTag| == 13;
    assert |EventTag| == 7 && |StationTag| == 9 && |PlotTag| == 10;
  }

  lemma TitleHeadFree()
    ensures FreeOf(TitleHead, TitleTags)
  {
    TagsClosed();
    FreeOfText(TitleHead[0], TitleTags);
    FreeOfText(TitleHead[1], TitleTags);
    FreeOfText(TitleHead[2], TitleTags);
    FreeOfText(TitleHead[3], TitleTags);
    FreeOfEach(TitleHead, TitleTags);
  }

  lemma TitleMidFree()
    ensures FreeOf(TitleMid, TitleTags)
  {
    TagsClosed();
    OptionsClosed();
    FreeOfText(TitleMid[0], TitleTags);
    FreeOfText(TitleMid[1], TitleTags);
    OptionsNotTags(TitleMid[2]);
    FreeOfWord(TitleMid[2], TitleTags);
    FreeOfText(TitleMid[3], TitleTags);
    FreeOfEach(TitleMid, TitleTags);
  }

  lemma TitleMapFree()
    ensures FreeOf(TitleMap, TitleTags)
  {
    TagsClosed();
    FreeOfText(TitleMap[0], TitleTags);
    FreeOfEach(TitleMap, TitleTags);
  }

  lemma TitleTailFree()
    ensures FreeOf(TitleTail, TitleTags)
  {
    TagsClosed();
    FreeOfText(TitleTail[0], TitleTags);
    FreeOfText(TitleTail[1], TitleTags);
    FreeOfEach(TitleTail, TitleTags);
  }

  lemma MoveoutHeadFree()
    ensures FreeOf(MoveoutHead, TitleTags)
  {
    TagsClosed();
    OptionsClosed();
    FreeOfText(MoveoutHead[0], TitleTags);
    OptionsNotTags(MoveoutHead[1]);
    FreeOfWord(MoveoutHead[1], TitleTags);
    FreeOfText(MoveoutHead[2], TitleTags);
    FreeOfEach(MoveoutHead, TitleTags);
  }

  lemma MoveoutTailFree()
    ensures FreeOf(MoveoutTail, TitleTags)
  {
    TagsClosed();
    FreeOfText(MoveoutTail[0], TitleTags);
    FreeOfEach(MoveoutTail, TitleTags);
  }

  lemma StreamHeadFree()
    ensures FreeOf(StreamHead, StreamTags)
  {
    TagsClosed();
    OptionsClosed();
    FreeOfText(StreamHead[0], StreamTags);
    OptionsNotTags(StreamHead[1]);
    FreeOfWord(StreamHead[1], StreamTags);
    FreeOfText(StreamHead[2], StreamTags);
    OptionsNotTags(StreamHead[3]);
    FreeOfWord(StreamHead[3], StreamTags);
    FreeOfText(StreamHead[4], StreamTags);
    OptionsNotTags(StreamHead[5]);
    FreeOfWord(StreamHead[5], StreamTags);
    FreeOfText(StreamHead[6], StreamTags);
    FreeOfEach(StreamHead, StreamTags);
  }

  lemma StreamMidFree()
    ensures FreeOf(StreamMid, StreamTags)
  {
    TagsClosed();
    OptionsClosed();
    FreeOfText(StreamMid[0], StreamTags);
    OptionsNotTags(StreamMid[1]);
    FreeOfWord(StreamMid[1], StreamTags);
    FreeOfText(StreamMid[2], StreamTags);
    OptionsNotTags(StreamMid[3]);
    FreeOfWord(StreamMid[3], StreamTags);
    FreeOfText(StreamMid[4], StreamTags);
    FreeOfEach(StreamMid, StreamTags);
  }

  lemma StreamPlotFree()
    ensures FreeOf(StreamPlot, StreamTags)
  {
    TagsClosed();
    OptionsClosed();
    FreeOfText(StreamPlot[0], StreamTags);
    FreeOfText(StreamPlot[1], StreamTags);
    OptionsNotTags(StreamPlot[2]);
    FreeOfWord(StreamPlot[2], StreamTags);
    FreeOfText(StreamPlot[3], StreamTags);
    FreeOfEach(StreamPlot, StreamTags);
  }

  lemma StreamTailFree()
    ensures FreeOf(StreamTail, StreamTags)
  {
    TagsClosed();
    FreeOfText(StreamTail[0], StreamTags);
    FreeOfEach(StreamTail, StreamTags);
  }

  lemma FreeOfTitle(ps: seq<string>)
    requires FreeOf(ps, TitleTags)
    ensures AllPieces(ps)
    ensures MapTag !in ps && VersionTag !in ps && MoveoutPageTag !in ps && MoveoutPathTag !in ps
  {
    assert TitleTags[0] == MapTag && TitleTags[1] == VersionTag;
    assert TitleTags[2] == MoveoutPageTag && TitleTags[3] == MoveoutPathTag;
  }

  lemma FreeOfStream(ps: seq<string>)
    requires FreeOf(ps, StreamTags)
    ensures AllPieces(ps)
    ensures PlotTag !in ps && EventTag !in ps && StationTag !in ps
  {
    assert StreamTags[0] == PlotTag && StreamTags[1] == EventTag && StreamTags[2] == StationTag;
  }

  lemma Regroup5(a: seq<string>, b: seq<string>, c: seq<string>, d: seq<string>, e: seq<string>)
    ensures a + b + c + d + e == a + b + (c + d + e)
  {
  }

  lemma Regroup7(a: seq<string>, b: seq<string>, c: seq<string>, d: seq<string>, e: seq<string>,
                 f: seq<string>, g: seq<string>)
    ensures a + b + c + d + e + f + g == (a + b + c) + d + (e + f + g)
    ensures a + b + (c + d + (e + f + g)) == (a + b + c + d + e) + f + g
  {
  }

  /** TITLEBLOCK's replacements, in the source's order, applied to a
      template and a moveout snippet. */
  function FillTitle(template: string, moveoutTex: string, version: string, moveoutExists: bool): string {
    var t := ReplaceAll(template, MapTag, "stations_map.png");
    var t := ReplaceAll(t, VersionTag, version);
    if moveoutExists then
      var t := ReplaceAll(t, MoveoutPageTag, moveoutTex);
      ReplaceAll(t, MoveoutPathTag, "moveout_plot.png")
    else
      ReplaceAll(t, MoveoutPageTag, "")
  }

  /** The title page, built only when the station map exists. */
  function TitleBlock(version: string, moveoutExists: bool): string {
    FillTitle(TitleTemplate, MoveoutPageTex, version, moveoutExists)
  }

  /** The title page as filled pieces. */
  function TitleFilled(version: string, moveoutExists: bool): seq<string> {
    TitleHead + [version] + TitleMid + ["stations_map.png"] + TitleMap +
    (if moveoutExists then MoveoutHead + ["moveout_plot.png"] + MoveoutTail else [""]) +
    TitleTail
  }

  lemma Regroup4(a: seq<string>, b: seq<string>, c: seq<string>, d: seq<string>, e: seq<string>)
    ensures a + (b + c + d) + e == (a + b) + c + (d + e)
  {
  }

  /** First replacement: the map path. */
  lemma FillTitleMap(h: seq<string>, m: seq<string>, mp: seq<string>, t: seq<string>)
    requires FreeOf(h, TitleTags) && FreeOf(m, TitleTags) && FreeOf(mp, TitleTags) && FreeOf(t, TitleTags)
    ensures ReplaceAll(Concat(h + [VersionTag] + m + [MapTag] + mp + [MoveoutPageTag] + t), MapTag, "stations_map.png")
         == Concat(h + [VersionTag] + (m + ["stations_map.png"] + (mp + [MoveoutPageTag] + t)))
  {
    TagsClosed();
    TagsDistinct();
    FreeOfTitle(h);
    FreeOfTitle(m);
    FreeOfTitle(mp);
    FreeOfTitle(t);
    assert Closed(MapTag) && Closed(VersionTag) && Closed(MoveoutPageTag) by {
      assert TitleTags[0] == MapTag && TitleTags[1] == VersionTag && TitleTags[2] == MoveoutPageTag;
    }
    var a := h + [VersionTag] + m;
    var b := mp + [MoveoutPageTag] + t;
    AllPiecesJoin(h, [VersionTag]);
    AllPiecesJoin(h + [VersionTag], m);
    AllPiecesJoin(mp, [MoveoutPageTag]);
    AllPiecesJoin(mp + [MoveoutPageTag], t);
    Regroup7(h, [VersionTag], m, [MapTag], mp, [MoveoutPageTag], t);
    FillSplice(a, b, MapTag, ["stations_map.png"]);
    ConcatOne("stations_map.png");
    Regroup5(h, [VersionTag], m, ["stations_map.png"], b);
  }

  /** Second replacement: the code version. */
  lemma FillTitleVersion(h: seq<string>, rest: seq<string>, version: string)
    requires AllPieces(h) && AllPieces(rest) && VersionTag !in h && VersionTag !in rest
    requires '[' !in version
    ensures ReplaceAll(Concat(h + [VersionTag] + rest), VersionTag, version) == Concat(h + [version] + rest)
  {
    assert Closed(VersionTag) by { BracketClosed("VERSION"); }
    FillSplice(h, rest, VersionTag, [version]);
    ConcatOne(version);
  }

  /** Last replacements: the moveout page, then its plot path. */
  lemma FillTitleMoveout(a: seq<string>, t: seq<string>, mh: seq<string>, mt: seq<string>,
                         moveoutExists: bool)
    requires FreeOf(a, TitleTags) && FreeOf(t, TitleTags) && FreeOf(mh, TitleTags) && FreeOf(mt, TitleTags)
    ensures (if moveoutExists
             then ReplaceAll(ReplaceAll(Concat(a + [MoveoutPageTag] + t), MoveoutPageTag,
                                        Concat(mh + [MoveoutPathTag] + mt)), MoveoutPathTag, "moveout_plot.png")
             else ReplaceAll(Concat(a + [MoveoutPageTag] + t), MoveoutPageTag, ""))
         == Concat(a + (if moveoutExists then mh + ["moveout_plot.png"] + mt else [""]) + t)
  {
    TagsClosed();
    FreeOfTitle(a);
    FreeOfTitle(t);
    FreeOfTitle(mh);
    FreeOfTitle(mt);
    assert Closed(MoveoutPageTag) && Closed(MoveoutPathTag) by {
      assert TitleTags[2] == MoveoutPageTag && TitleTags[3] == MoveoutPathTag;
    }
    if moveoutExists {
      var r := mh + [MoveoutPathTag] + mt;
      FillSplice(a, t, MoveoutPageTag, r);
      AllPiecesJoin(a, mh);
      AllPiecesJoin(mt, t);
      Regroup4(a, mh, [MoveoutPathTag], mt, t);
      FillSplice(a + mh, mt + t, MoveoutPathTag, ["moveout_plot.png"]);
      ConcatOne("moveout_plot.png");
      Regroup4(a, mh, ["moveout_plot.png"], mt, t);
    } else {
      FillSplice(a, t, MoveoutPageTag, [""]);
      ConcatOne("");
    }
  }

  /** With a version string free of `[`, the title page is the template with
      `stations_map.png`, the version and the moveout snippet (pointing at
      `moveout_plot.png`), or nothing, in place of the placeholders. */
  lemma TitleBlockFilled(version: string, moveoutExists: bool)
    requires '[' !in version
    ensures TitleBlock(version, moveoutExists) == Concat(TitleFilled(version, moveoutExists))
  {
    TitleHeadFree();
    TitleMidFree();
    TitleMapFree();
    TitleTailFree();
    MoveoutHeadFree();
    MoveoutTailFree();
    FillTitleMap(TitleHead, TitleMid, TitleMap, TitleTail);
    var rest := TitleMid + ["stations_map.png"] + (TitleMap + [MoveoutPageTag] + TitleTail);
    assert AllPieces(rest) && VersionTag !in rest && VersionTag !in TitleHead by {
      TagsClosed();
      TagsDistinct();
      FreeOfTitle(TitleHead);
      FreeOfTitle(TitleMid);
      FreeOfTitle(TitleMap);
      FreeOfTitle(TitleTail);
      FreeOfText("stations_map.png", TitleTags);
      FreeOfTitle(["stations_map.png"]);
      assert Closed(MoveoutPageTag) by { assert TitleTags[2] == MoveoutPageTag; }
      AllPiecesJoin(TitleMap, [MoveoutPageTag]);
      AllPiecesJoin(TitleMap + [MoveoutPageTag], TitleTail);
      AllPiecesJoin(TitleMid, ["stations_map.png"]);
      AllPiecesJoin(TitleMid + ["stations_map.png"], TitleMap + [MoveoutPageTag] + TitleTail);
    }
    FillTitleVersion(TitleHead, rest, version);
    var a := TitleHead + [version] + TitleMid + ["stations_map.png"] + TitleMap;
    Regroup7(TitleHead, [version], TitleMid, ["stations_map.png"], TitleMap, [MoveoutPageTag], TitleTail);
    assert FreeOf(a, TitleTags) by {
      TagsClosed();
      FreeOfText(version, TitleTags);
      FreeOfText("stations_map.png", TitleTags);
      FreeOfJoin(TitleHead, [version], TitleTags);
      FreeOfJoin(TitleHead + [version], TitleMid, TitleTags);
      FreeOfJoin(TitleHead + [version] + TitleMid, ["stations_map.png"], TitleTags);
      FreeOfJoin(TitleHead + [version] + TitleMid + ["stations_map.png"], TitleMap, TitleTags);
    }
    FillTitleMoveout(a, TitleTail, MoveoutHead, MoveoutTail, moveoutExists);
  }

  lemma TitleFilledFree(version: string, moveoutExists: bool)
    requires '[' !in version
    ensures FreeOf(TitleFilled(version, moveoutExists), TitleTags)
  {
      TagsClosed();
      TitleHeadFree();
      TitleMidFree();
      TitleMapFree();
      TitleTailFree();
      MoveoutHeadFree();
      MoveoutTailFree();
      FreeOfText(version, TitleTags);
      FreeOfText("stations_map.png", TitleTags);
      FreeOfText("moveout_plot.png", TitleTags);
      FreeOfText("", TitleTags);
      var mv := if moveoutExists then MoveoutHead + ["moveout_plot.png"] + MoveoutTail else [""];
      if moveoutExists {
        FreeOfJoin(MoveoutHead, ["moveout_plot.png"], TitleTags);
        FreeOfJoin(MoveoutHead + ["moveout_plot.png"], MoveoutTail, TitleTags);
      }
      FreeOfJoin(TitleHead, [version], TitleTags);
      FreeOfJoin(TitleHead + [version], TitleMid, TitleTags);
      FreeOfJoin(TitleHead + [version] + TitleMid, ["stations_map.png"], TitleTags);
      FreeOfJoin(TitleHead + [version] + TitleMid + ["stations_map.png"], TitleMap, TitleTags);
      FreeOfJoin(TitleHead + [version] + TitleMid + ["stations_map.png"] + TitleMap, mv, TitleTags);
      FreeOfJoin(TitleHead + [version] + TitleMid + ["stations_map.png"] + TitleMap + mv, TitleTail, TitleTags);
    }

  /** No placeholder is left in the title page. */
  lemma TitleBlockComplete(version: string, moveoutExists: bool)
    requires '[' !in version
    ensures !Occurs(MapTag, TitleBlock(version, moveoutExists))
    ensures !Occurs(VersionTag, TitleBlock(version, moveoutExists))
    ensures !Occurs(MoveoutPageTag, TitleBlock(version, moveoutExists))
    ensures !Occurs(MoveoutPathTag, TitleBlock(version, moveoutExists))
  {
    TitleBlockFilled(version, moveoutExists);
    var ps := TitleFilled(version, moveoutExists);
    TitleFilledFree(version, moveoutExists);
    FreeOfTitle(ps);
    TitleTagsClosed();
    Absent(ps, MapTag);
    Absent(ps, VersionTag);
    Absent(ps, MoveoutPageTag);
    Absent(ps, MoveoutPathTag);
  }

  /** STREAMBLOCK's replacements, in the source's order. */
  function FillStream(template: string, plotPath: string, eventText: string, stationText: string): string {
    var t := ReplaceAll(template, PlotTag, plotPath);
    var t := ReplaceAll(t, EventTag, eventText);
    ReplaceAll(t, StationTag, stationText)
  }

  function StreamBlock(plotPath: string, eventText: string, stationText: string): string {
    FillStream(StreamTemplate, plotPath, eventText, stationText)
  }

  /** The stream block as filled pieces. */
  function StreamFilled(plotPath: string, eventText: string, stationText: string): seq<string> {
    StreamHead + [eventText] + StreamMid + [stationText] + StreamPlot + [plotPath] + StreamTail
  }

  lemma StreamPrefix(h: seq<string>, m: seq<string>, p: seq<string>)
    requires FreeOf(h, StreamTags) && FreeOf(m, StreamTags) && FreeOf(p, StreamTags)
    ensures AllPieces(h + [EventTag] + m + [StationTag] + p)
    ensures PlotTag !in h + [EventTag] + m + [StationTag] + p
  {
    TagsClosed();
    TagsDistinct();
    FreeOfStream(h);
    FreeOfStream(m);
    FreeOfStream(p);
    assert Closed(EventTag) && Closed(StationTag) by {
      assert StreamTags[1] == EventTag && StreamTags[2] == StationTag;
    }
    AllPiecesJoin(h, [EventTag]);
    AllPiecesJoin(h + [EventTag], m);
    AllPiecesJoin(h + [EventTag] + m, [StationTag]);
    AllPiecesJoin(h + [EventTag] + m + [StationTag], p);
  }

  lemma FillStreamPlot(h: seq<string>, m: seq<string>, p: seq<string>, t: seq<string>, plotPath: string)
    requires FreeOf(h, StreamTags) && FreeOf(m, StreamTags) && FreeOf(p, StreamTags) && FreeOf(t, StreamTags)
    requires '[' !in plotPath
    ensures ReplaceAll(Concat(h + [EventTag] + m + [StationTag] + p + [PlotTag] + t), PlotTag, plotPath)
         == Concat(h + [EventTag] + m + [StationTag] + p + [plotPath] + t)
  {
    StreamPrefix(h, m, p);
    FreeOfStream(t);
    assert Closed(PlotTag) by { BracketClosed("PLOTPATH"); }
    var a := h + [EventTag] + m + [StationTag] + p;
    FillSplice(a, t, PlotTag, [plotPath]);
    ConcatOne(plotPath);
  }

  lemma FillStreamEvent(h: seq<string>, rest: seq<string>, eventText: string)
    requires AllPieces(h) && AllPieces(rest) && EventTag !in h && EventTag !in rest
    requires '[' !in eventText
    ensures ReplaceAll(Concat(h + [EventTag] + rest), EventTag, eventText) == Concat(h + [eventText] + rest)
  {
    assert Closed(EventTag) by { BracketClosed("EVENT"); }
    FillSplice(h, rest, EventTag, [eventText]);
    ConcatOne(eventText);
  }

  lemma FillStreamStation(h: seq<string>, rest: seq<string>, stationText: string)
    requires AllPieces(h) && AllPieces(rest) && StationTag !in h && StationTag !in rest
    requires '[' !in stationText
    ensures ReplaceAll(Concat(h + [StationTag] + rest), StationTag, stationText) == Concat(h + [stationText] + rest)
  {
    assert Closed(StationTag) by { BracketClosed("STATION"); }
    FillSplice(h, rest, StationTag, [stationText]);
    ConcatOne(stationText);
  }

  lemma Regroup7b(a: seq<string>, b: seq<string>, c: seq<string>, d: seq<string>, e: seq<string>,
                  f: seq<string>, g: seq<string>)
    ensures a + b + c + d + e + f + g == a + b + (c + d + e + f + g)
    ensures a + b + (c + d + e + f + g) == (a + b + c) + d + (e + f + g)
    ensures (a + b + c) + d + (e + f + g) == a + b + c + d + e + f + g
  {
  }

  /** With plot path, event text and station text free of `[`, the stream
      block is the template with the three texts in place of `[PLOTPATH]`,
      `[EVENT]` and `[STATION]`, and no placeholder is left. */
  lemma StreamBlockFilled(plotPath: string, eventText: string, stationText: string)
    requires '[' !in plotPath && '[' !in eventText && '[' !in stationText
    ensures StreamBlock(plotPath, eventText, stationText) == Concat(StreamFilled(plotPath, eventText, stationText))
    ensures !Occurs(PlotTag, StreamBlock(plotPath, eventText, stationText))
    ensures !Occurs(EventTag, StreamBlock(plotPath, eventText, stationText))
    ensures !Occurs(StationTag, StreamBlock(plotPath, eventText, stationText))
  {
    StreamHeadFree();
    StreamMidFree();
    StreamPlotFree();
    StreamTailFree();
    TagsClosed();
    TagsDistinct();
    FreeOfText(plotPath, StreamTags);
    FreeOfText(eventText, StreamTags);
    FreeOfText(stationText, StreamTags);
    FreeOfStream(StreamHead);
    FreeOfStream(StreamMid);
    FreeOfStream(StreamPlot);
    FreeOfStream(StreamTail);
    FreeOfStream([plotPath]);
    FreeOfStream([eventText]);
    FreeOfStream([stationText]);
    assert Closed(PlotTag) && Closed(EventTag) && Closed(StationTag) by {
      assert StreamTags == [PlotTag, EventTag, StationTag];
    }
    var h, m, p, t := StreamHead, StreamMid, StreamPlot, StreamTail;
    FillStreamPlot(h, m, p, t, plotPath);
    var rest := m + [StationTag] + p + [plotPath] + t;
    Regroup7b(h, [EventTag], m, [StationTag], p, [plotPath], t);
    AllPiecesJoin(m, [StationTag]);
    AllPiecesJoin(m + [StationTag], p);
    AllPiecesJoin(m + [StationTag] + p, [plotPath]);
    AllPiecesJoin(m + [StationTag] + p + [plotPath], t);
    FillStreamEvent(h, rest, eventText);
    Regroup7b(h, [eventText], m, [StationTag], p, [plotPath], t);
    AllPiecesJoin(h, [eventText]);
    AllPiecesJoin(h + [eventText], m);
    AllPiecesJoin(p, [plotPath]);
    AllPiecesJoin(p + [plotPath], t);
    FillStreamStation(h + [eventText] + m, p + [plotPath] + t, stationText);
    Regroup7b(h, [eventText], m, [stationText], p, [plotPath], t);
    var ps := StreamFilled(plotPath, eventText, stationText);
    FreeOfJoin(h, [eventText], StreamTags);
    FreeOfJoin(h + [eventText], m, StreamTags);
    FreeOfJoin(h + [eventText] + m, [stationText], StreamTags);
    FreeOfJoin(h + [eventText] + m + [stationText], p, StreamTags);
    FreeOfJoin(h + [eventText] + m + [stationText] + p, [plotPath], StreamTags);
    FreeOfJoin(h + [eventText] + m + [stationText] + p + [plotPath], t, StreamTags);
    FreeOfStream(ps);
    Absent(ps, PlotTag);
    Absent(ps, EventTag);
    Absent(ps, StationTag);
  }

  /* ---------------------------------------------------------------------
     The streams and the report.
     --------------------------------------------------------------------- */

  /** What the report reads from a trace: its failure reason (a trace has
      passed exactly when it carries none) and, for the first trace of a
      stream, the picker type of its "signal_split" parameter if present. */
  datatype Trace = Trace(failureReason: Option<string>, pickerType: Option<string>)
  {
    predicate Passed() { failureReason.None? }
  }

  /** What the report reads from a stream. `id` is the sort key, `streamId`
      the text of `get_id()`; `repi` is the epicentral distance already
      rounded and printed; `provLatex` is the provenance table, or `None`
      when building it raises ValueError; `nnetQa` holds the printed LQ and
      HQ scores when the stream has the "nnet_qa" parameter. */
  datatype Stream = Stream(
    id: string,
    streamId: string,
    passed: bool,
    traces: seq<Trace>,
    repi: string,
    provLatex: Option<string>,
    nnetQa: Option<(string, string)>)

  /** The event's id and its printed magnitude and rounded depth. */
  datatype Event = Event(id: string, magnitude: string, depth: string)

  /** The sort key of `st_list.sort(key=lambda x: x.id)`. */
  function StreamKey(st: Stream): seq<string> {
    [st.id]
  }

  predicate AllNonEmpty(streams: seq<Stream>) {
    forall i :: 0 <= i < |streams| ==> |streams[i].traces| > 0
  }

  /** `event.id` with every `smi:local/` removed. */
  function EventId(id: string): string {
    ReplaceAll(id, "smi:local/", "")
  }

  function PlotPath(eventId: string, streamId: string): string {
    "plots/" + eventId + "_" + streamId + ".png"
  }

  function EventText(eventId: string, event: Event): string {
    StrForLatex(eventId) + " - M" + event.magnitude + ", depth: " + event.depth + " km"
  }

  function StationText(st: Stream): string {
    st.streamId + ", Repi: " + st.repi + " km"
  }

  function ProvText(st: Stream): string {
    match st.provLatex
    case Some(t) => t
    case None => StrForLatex(ProvFallback)
  }

  function PickText(st: Stream): string
    requires |st.traces| > 0
  {
    match st.traces[0].pickerType
    case Some(p) => "Pick Method: " + StrForLatex(p) + "\n\n"
    case None => ""
  }

  function NnetText(st: Stream): string {
    match st.nnetQa
    case Some((lq, hq)) =>
      ("Neural Network LQ score: " + StrForLatex(lq) + "\n\n") +
      ("Neural Network HQ score: " + StrForLatex(hq) + "\n\n")
    case None => ""
  }

  /** The reason of the first failed trace, if any. */
  function FirstFailure(traces: seq<Trace>): Option<string> {
    if traces == [] then None
    else if !traces[0].Passed() then traces[0].failureReason
    else FirstFailure(traces[1..])
  }

  function FailureLine(reason: string): string {
    "Failure reason: " + StrForLatex(reason) + "\n\n"
  }

  function FailureText(st: Stream): string {
    if st.passed then ""
    else match FirstFailure(st.traces)
      case Some(r) => FailureLine(r)
      case None => ""
  }

  /** One stream's page. */
  function Page(st: Stream, event: Event): string
    requires |st.traces| > 0
  {
    var eventId := EventId(event.id);
    StreamBlock(PlotPath(eventId, st.streamId), EventText(eventId, event), StationText(st)) +
    ProvText(st) + "\n" + PickText(st) + NnetText(st) + FailureText(st) + NewPage
  }

  function Pages(streams: seq<Stream>, event: Event): string
    requires AllNonEmpty(streams)
  {
    if streams == [] then ""
    else Pages(streams[..|streams| - 1], event) + Page(streams[|streams| - 1], event)
  }

  /** Appending one stream's page to the pages of the streams before it. */
  lemma PagesSnoc(ss: seq<Stream>, k: nat, event: Event)
    requires AllNonEmpty(ss) && k < |ss|
    ensures AllNonEmpty(ss[..k]) && AllNonEmpty(ss[..k + 1])
    ensures Pages(ss[..k + 1], event) == Pages(ss[..k], event) + Page(ss[k], event)
  {
    assert ss[..k + 1][..k] == ss[..k];
  }

  /** The pages of a list of streams, joined from the page of each. */
  lemma {:induction false} PagesConcat(ss: seq<Stream>, pages: seq<string>, event: Event)
    requires AllNonEmpty(ss) && |pages| == |ss|
    requires forall i :: 0 <= i < |ss| ==> pages[i] == Page(ss[i], event)
    ensures Pages(ss, event) == Concat(pages)
  {
    if ss != [] {
      var n := |ss| - 1;
      PagesConcat(ss[..n], pages[..n], event);
      ConcatSnoc(pages[..n], pages[n]);
      Text.InitLast(pages);
    }
  }

  lemma {:induction false} SortKeepsNonEmpty(streams: seq<Stream>)
    requires AllNonEmpty(streams)
    ensures AllNonEmpty(SortBy(streams, StreamKey))
  {
    var sorted := SortBy(streams, StreamKey);
    SortByCorrect(streams, StreamKey);
    forall i | 0 <= i < |sorted| ensures |sorted[i].traces| > 0 {
      assert sorted[i] in multiset(sorted);
      assert sorted[i] in multiset(streams);
    }
  }

  /** The whole report text. */
  function ReportLatex(streams: seq<Stream>, event: Event, version: string,
                       mapExists: bool, moveoutExists: bool): string
    requires AllNonEmpty(streams)
  {
    SortKeepsNonEmpty(streams);
    Preamble + (if mapExists then TitleBlock(version, moveoutExists) else "") +
    Pages(SortBy(streams, StreamKey), event) + Postamble
  }

  /** A leading `smi:local/` is dropped from the event id. */
  lemma EventIdStripsPrefix(x: string)
    requires !Occurs("smi:local/", x)
    ensures EventId("smi:local/" + x) == x
  {
    ReplaceAllLeading("smi:local/", x, "");
    ReplaceAllAbsent(x, "smi:local/", "");
    assert "" + x == x;
  }

  /** An id without a slash is used as it is. */
  lemma EventIdPlain(x: string)
    requires '/' !in x
    ensures EventId(x) == x
  {
    MissingChar("smi:local/", x, '/');
    ReplaceAllAbsent(x, "smi:local/", "");
  }

  /** The failure reported is that of the first failed trace. */
  lemma {:induction false} FirstFailureAt(traces: seq<Trace>, i: nat)
    requires i < |traces| && !traces[i].Passed()
    requires forall j :: 0 <= j < i ==> traces[j].Passed()
    ensures FirstFailure(traces) == traces[i].failureReason
  {
    if i > 0 {
      assert traces[0].Passed();
      FirstFailureAt(traces[1..], i - 1);
    }
  }

  /** No failure is found exactly when every trace passed. */
  lemma {:induction false} FirstFailureNone(traces: seq<Trace>)
    ensures FirstFailure(traces).None? <==> forall j :: 0 <= j < |traces| ==> traces[j].Passed()
  {
    if traces != [] {
      FirstFailureNone(traces[1..]);
      if traces[0].Passed() {
        forall j | 0 <= j < |traces[1..]| ensures traces[1..][j] == traces[j + 1] { }
      }
    }
  }

  /** A stream gets no failure line exactly when it passed or all its
      traces did. */
  lemma FailureTextEmpty(st: Stream)
    ensures FailureText(st) == "" <==>
            (st.passed || forall j :: 0 <= j < |st.traces| ==> st.traces[j].Passed())
  {
    FirstFailureNone(st.traces);
    if !st.passed && FirstFailure(st.traces).Some? {
      var r := FirstFailure(st.traces).value;
      assert |FailureLine(r)| >= |"Failure reason: "|;
    }
  }

  /** A failed stream reports the escaped reason of its first failed trace. */
  lemma FailureTextFirst(st: Stream, i: nat)
    requires !st.passed && i < |st.traces| && !st.traces[i].Passed()
    requires forall j :: 0 <= j < i ==> st.traces[j].Passed()
    ensures FailureText(st) == FailureLine(st.traces[i].failureReason.value)
  {
    FirstFailureAt(st.traces, i);
  }

  /** Every page ends by starting a new LaTeX page. */
  lemma PageEndsWithNewPage(st: Stream, event: Event)
    requires |st.traces| > 0
    ensures |Page(st, event)| >= |NewPage|
    ensures Page(st, event)[|Page(st, event)| - |NewPage|..] == NewPage
  {
    var eventId := EventId(event.id);
    var body := StreamBlock(PlotPath(eventId, st.streamId), EventText(eventId, event), StationText(st)) +
      ProvText(st) + "\n" + PickText(st) + NnetText(st) + FailureText(st);
    assert Page(st, event) == body + NewPage;
    SuffixOf(body, NewPage);
  }

  lemma SuffixOf(a: string, b: string)
    ensures |a + b| >= |b| && (a + b)[|a + b| - |b|..] == b
  {
  }

  /** The report opens with the preamble, followed by the title page when
      the map exists. */
  lemma ReportOpening(streams: seq<Stream>, event: Event, version: string,
                      mapExists: bool, moveoutExists: bool)
    requires AllNonEmpty(streams)
    ensures var r := ReportLatex(streams, event, version, mapExists, moveoutExists);
      Preamble <= r && (mapExists ==> Preamble + TitleBlock(version, moveoutExists) <= r)
  {
    SortKeepsNonEmpty(streams);
    var pages := Pages(SortBy(streams, StreamKey), event);
    var title := if mapExists then TitleBlock(version, moveoutExists) else "";
    assert ReportLatex(streams, event, version, mapExists, moveoutExists) == Preamble + title + pages + Postamble;
    PrefixOf(Preamble, title, pages, Postamble);
  }

  /** The report closes with the postamble. */
  lemma ReportClosing(streams: seq<Stream>, event: Event, version: string,
                      mapExists: bool, moveoutExists: bool)
    requires AllNonEmpty(streams)
    ensures var r := ReportLatex(streams, event, version, mapExists, moveoutExists);
      |r| >= |Postamble| && r[|r| - |Postamble|..] == Postamble
  {
    SortKeepsNonEmpty(streams);
    var title := if mapExists then TitleBlock(version, moveoutExists) else "";
    var body := Preamble + title + Pages(SortBy(streams, StreamKey), event);
    assert ReportLatex(streams, event, version, mapExists, moveoutExists) == body + Postamble;
    SuffixOf(body, Postamble);
  }

  lemma PrefixOf(a: string, b: string, c: string, d: string)
    ensures a <= a + b + c + d && a + b <= a + b + c + d
  {
  }

  /** In the provenance table, row `i` repeats the processing step of the
      row before it: `last_row` starts at -1 and then holds the index of the
      previous row. */
  predicate Repeated(index: seq<int>, i: nat)
    requires i < |index|
  {
    index[i] == if i == 0 then -1 else index[i - 1]
  }

  /** The "Process Step" column once every repeated step is blanked. */
  function BlankedSteps(steps: seq<string>, index: seq<int>): (r: seq<string>)
    requires |steps| == |index|
    ensures |r| == |steps|
  {
    seq(|steps|, i requires 0 <= i < |steps| => if Repeated(index, i) then "" else steps[i])
  }

  /** A step is kept exactly when it starts a new run of the index column,
      and blanked otherwise. */
  lemma BlankedStepsAt(steps: seq<string>, index: seq<int>, i: nat)
    requires |steps| == |index| && i < |steps|
    ensures Repeated(index, i) ==> BlankedSteps(steps, index)[i] == ""
    ensures !Repeated(index, i) ==> BlankedSteps(steps, index)[i] == steps[i]
  {
  }

  /** Blanking a second time changes nothing. */
  lemma BlankedStepsIdempotent(steps: seq<string>, index: seq<int>)
    requires |steps| == |index|
    ensures BlankedSteps(BlankedSteps(steps, index), index) == BlankedSteps(steps, index)
  {
  }

  /** With non-negative indices the first row always keeps its step, and a
      column whose indices all differ from their predecessors is unchanged. */
  lemma BlankedStepsDistinct(steps: seq<string>, index: seq<int>)
    requires |steps| == |index|
    requires forall i :: 0 <= i < |index| ==> index[i] >= 0
    requires forall i :: 0 < i < |index| ==> index[i] != index[i - 1]
    ensures BlankedSteps(steps, index) == steps
  {
  }

  /** A left-to-right reading of the same rule, carrying the previous index
      the way the loop carries `last_row`. */
  function BlankFrom(steps: seq<string>, index: seq<int>, lastRow: int): (r: seq<string>)
    requires |steps| == |index|
    ensures |r| == |steps|
  {
    if steps == [] then []
    else [if index[0] == lastRow then "" else steps[0]] + BlankFrom(steps[1..], index[1..], index[0])
  }

  /** The running reading and the positional one agree on every suffix. */
  lemma {:induction false} BlankFromSuffix(steps: seq<string>, index: seq<int>, k: nat)
    requires |steps| == |index| && k <= |steps|
    ensures BlankFrom(steps[k..], index[k..], if k == 0 then -1 else index[k - 1])
            == BlankedSteps(steps, index)[k..]
    decreases |steps| - k
  {
    if k < |steps| {
      BlankFromSuffix(steps, index, k + 1);
      assert steps[k..][1..] == steps[k + 1..];
      assert index[k..][1..] == index[k + 1..];
      var b := BlankedSteps(steps, index);
      assert b[k..] == [b[k]] + b[k + 1..];
    }
  }

  lemma BlankFromStart(steps: seq<string>, index: seq<int>)
    requires |steps| == |index|
    ensures BlankFrom(steps, index, -1) == BlankedSteps(steps, index)
  {
    BlankFromSuffix(steps, index, 0);
    assert steps[0..] == steps && index[0..] == index;
  }

  /** The blanking loop of `get_prov_latex`, in place on the column. */
  method BlankRepeatedSteps(steps: array<string>, index: seq<int>)
    requires steps.Length == |index|
    modifies steps
    ensures steps[..] == BlankedSteps(old(steps[..]), index)
  {
    var lastRow := -1;
    var i := 0;
    while i < |index|
      invariant 0 <= i <= |index|
      invariant lastRow == if i == 0 then -1 else index[i - 1]
      invariant forall j :: 0 <= j < i ==> steps[j] == if Repeated(index, j) then "" else old(steps[j])
      invariant forall j :: i <= j < steps.Length ==> steps[j] == old(steps[j])
    {
      if index[i] == lastRow {
        steps[i] := "";
        i := i + 1;
        continue;
      }
      lastRow := index[i];
      i := i + 1;
    }
  }

  /** The title page, replacement by replacement as the source builds it. */
  method BuildTitleBlock(version: string, moveoutExists: bool) returns (titleBlock: string)
    ensures titleBlock == TitleBlock(version, moveoutExists)
  {
    titleBlock := ReplaceAll(TitleTemplate, MapTag, "stations_map.png");
    titleBlock := ReplaceAll(titleBlock, VersionTag, version);
    if moveoutExists {
      titleBlock := ReplaceAll(titleBlock, MoveoutPageTag, MoveoutPageTex);
      titleBlock := ReplaceAll(titleBlock, MoveoutPathTag, "moveout_plot.png");
    } else {
      titleBlock := ReplaceAll(titleBlock, MoveoutPageTag, "");
    }
  }

  /** The stream block, replacement by replacement. */
  method BuildStreamBlock(st: Stream, event: Event, eventId: string) returns (stBlock: string)
    ensures stBlock == StreamBlock(PlotPath(eventId, st.streamId), EventText(eventId, event), StationText(st))
  {
    var plotPath := "plots/" + eventId + "_" + st.streamId + ".png";
    stBlock := ReplaceAll(StreamTemplate, PlotTag, plotPath);
    stBlock := ReplaceAll(stBlock, EventTag,
                          StrForLatex(eventId) + " - M" + event.magnitude + ", depth: " + event.depth + " km");
    stBlock := ReplaceAll(stBlock, StationTag, st.streamId + ", Repi: " + st.repi + " km");
  }

  /** The failure line: the loop over the traces that stops at the first
      failed one. */
  method BuildFailureText(st: Stream) returns (text: string)
    ensures text == FailureText(st)
  {
    text := "";
    if !st.passed {
      var j := 0;
      while j < |st.traces|
        invariant 0 <= j <= |st.traces|
        invariant FirstFailure(st.traces) == FirstFailure(st.traces[j..])
        invariant text == ""
      {
        if !st.traces[j].Passed() {
          text := text + "Failure reason: " + StrForLatex(st.traces[j].failureReason.value) + "\n\n";
          break;
        }
        assert st.traces[j..][1..] == st.traces[j + 1..];
        j := j + 1;
      }
    }
  }

  method BuildProvText(st: Stream) returns (provLatex: string)
    ensures provLatex == ProvText(st)
  {
    match st.provLatex {
      case Some(t) => provLatex := t;
      case None => provLatex := StrForLatex(ProvFallback);
    }
  }

  /** One stream's page, appended to piece by piece as the source appends
      to the report. */
  method BuildPage(st: Stream, event: Event, eventId: string) returns (page: string)
    requires |st.traces| > 0 && eventId == EventId(event.id)
    ensures page == Page(st, event)
  {
    page := BuildStreamBlock(st, event, eventId);
    var provLatex := BuildProvText(st);
    page := page + provLatex;
    page := page + "\n";
    if st.traces[0].pickerType.Some? {
      var line := "Pick Method: " + StrForLatex(st.traces[0].pickerType.value) + "\n\n";
      page := page + line;
    } else {
      Text.AppendEmpty(page);
    }
    if st.nnetQa.Some? {
      var (lq, hq) := st.nnetQa.value;
      var lqLine := "Neural Network LQ score: " + StrForLatex(lq) + "\n\n";
      var hqLine := "Neural Network HQ score: " + StrForLatex(hq) + "\n\n";
      Text.AppendAssoc(page, lqLine, hqLine);
      page := page + lqLine;
      page := page + hqLine;
    } else {
      Text.AppendEmpty(page);
    }
    var failure := BuildFailureText(st);
    page := page + failure;
    page := page + NewPage;
  }

  /** The loop over the sorted streams, appending each one's page. */
  method AppendPages(start: string, sorted: seq<Stream>, event: Event) returns (report: string)
    requires AllNonEmpty(sorted)
    ensures report == start + Pages(sorted, event)
  {
    report := start;
    var eventId := EventId(event.id);
    var k := 0;
    Text.AppendEmpty(start);
    assert sorted[..0] == [];
    while k < |sorted|
      invariant 0 <= k <= |sorted|
      invariant report == start + Pages(sorted[..k], event)
    {
      var page := BuildPage(sorted[k], event, eventId);
      PagesSnoc(sorted, k, event);
      Text.AppendAssoc(start, Pages(sorted[..k], event), page);
      report := report + page;
      k := k + 1;
    }
    Text.TakeAll(sorted);
  }

  /** `build_report_latex` up to the finished LaTeX text: the title page if
      the map exists, then one page per stream in order of id. */
  method BuildReportLatex(streams: seq<Stream>, event: Event, version: string,
                          mapExists: bool, moveoutExists: bool) returns (report: string)
    requires AllNonEmpty(streams)
    ensures report == ReportLatex(streams, event, version, mapExists, moveoutExists)
  {
    report := Preamble;
    if mapExists {
      var titleBlock := BuildTitleBlock(version, moveoutExists);
      report := report + titleBlock;
    } else {
      Text.AppendEmpty(report);
    }
    var sorted := SortBy(streams, StreamKey);
    SortKeepsNonEmpty(streams);
    report := AppendPages(report, sorted, event);
    report := report + Postamble;
  }
}
