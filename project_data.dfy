/**
 * The project detail table behind the `/projects/[id]` pages, and the lookup of one project
 * by its id.
 */
module ProjectData {
  import opened Wrappers

  datatype Size = Small | Large

  /**
   * One project; `None` stands for an optional field the entry leaves out. The paragraphs of
   * the `description` field are display text that no lookup reads, and are not modelled.
   */
  datatype ProjectDetail = ProjectDetail(
    id: string,
    title: string,
    category: string,
    image: string,
    imageLink: Option<string>,
    technologies: seq<string>,
    timeline: Option<string>,
    contributors: Option<seq<string>>,
    link: Option<string>,
    size: Option<Size>)

  const ChessLlmBenchmarkTechnologies: seq<string> := [
    "Python",
    "asyncio",
    "Stockfish",
    "OpenAI API",
    "Anthropic API",
    "Google AI API",
    "PGN Analysis",
    "Prompt Engineering",
    "ELO Rating System"
  ]

  const ChessLlmBenchmarkContributors: seq<string> := ["Youssef Chouay"]

  const ChessLlmBenchmark: ProjectDetail := ProjectDetail(
    id := "chess-llm-benchmark",
    title := "Chess LLM Benchmark",
    category := "AI/ML Research Project",
    image := "/chessllm.png?height=600&width=800",
    imageLink := Some("/chessllm-github.png?height=600&width=800"),
    technologies := ChessLlmBenchmarkTechnologies,
    timeline := Some("Recent"),
    contributors := Some(ChessLlmBenchmarkContributors),
    link := Some("https://github.com/yourusername/chessLLM"),
    size := Some(Large))

  const GeeGeesIntramuralTechnologies: seq<string> := [
    "Next.js",
    "TypeScript",
    "Tailwind CSS",
    "Rust",
    "Actix-web",
    "PostgreSQL",
    "Chart.js"
  ]

  const GeeGeesIntramuralContributors: seq<string> := ["Youssef Chouay"]

  const GeeGeesIntramural: ProjectDetail := ProjectDetail(
    id := "geegees-intramural",
    title := "GeeGee's Intramural website",
    category := "Personal Project",
    image := "/geegeeshub.png?height=600&width=800",
    imageLink := Some("/geegeeshub-roadmap.jpeg?height=600&width=800"),
    technologies := GeeGeesIntramuralTechnologies,
    timeline := Some("May 2023 - Present"),
    contributors := Some(GeeGeesIntramuralContributors),
    link := Some("https://github.com/Youssef2430/geegeeshub"),
    size := Some(Small))

  const LedgerGlassTechnologies: seq<string> := [
    "Swift",
    "SwiftUI",
    "SwiftData",
    "NaturalLanguage",
    "Charts",
    "macOS"
  ]

  const LedgerGlassContributors: seq<string> := ["Youssef Chouay"]

  const LedgerGlass: ProjectDetail := ProjectDetail(
    id := "ledgerglass",
    title := "LedgerGlass, Privacy-First macOS Finance App",
    category := "Personal Project",
    image := "/glassUI.png?height=600&width=800",
    imageLink := Some("/ledgerUI-github.png?height=600&width=800"),
    technologies := LedgerGlassTechnologies,
    timeline := Some("Jul 2025 \U{2013} Present"),
    contributors := Some(LedgerGlassContributors),
    link := Some("https://github.com/Youssef2430/ledgerUI"),
    size := Some(Small))

  const NlpPhishingDetectionTechnologies: seq<string> := [
    "Python",
    "TensorFlow",
    "NLP",
    "Computer Vision",
    "AWS S3",
    "Chrome Extension API"
  ]

  const NlpPhishingDetectionContributors: seq<string> := ["Youssef Chouay", "Bell Canada Research Team"]

  const NlpPhishingDetection: ProjectDetail := ProjectDetail(
    id := "nlp-phishing-detection",
    title := "NLP Phishing Detection",
    category := "Bell Canada Research Project",
    image := "/capstone-example.png?height=600&width=800",
    imageLink := Some("/capstone-activity.jpeg?height=600&width=800"),
    technologies := NlpPhishingDetectionTechnologies,
    timeline := Some("Jan 2023 - Dec 2023"),
    contributors := Some(NlpPhishingDetectionContributors),
    link := Some("https://github.com/capstone-2024-T91/Image-Processing-and-NLP-for-Brand-Protection"),
    size := Some(Large))

  /** The `projects` table, in source order. */
  const Projects: seq<ProjectDetail> := [ChessLlmBenchmark, GeeGeesIntramural, LedgerGlass, NlpPhishingDetection]

  /** No two entries share an id. */
  predicate DistinctIds(table: seq<ProjectDetail>) {
    forall i, j :: 0 <= i < j < |table| ==> table[i].id != table[j].id
  }

  /**
   * `projects.find(project => project.id === id)` over `table`: the first entry with that id,
   * or `None` (JavaScript's `undefined`) when no entry has it.
   */
  function FindById(table: seq<ProjectDetail>, id: string): (r: Option<ProjectDetail>)
    ensures r.None? <==> forall i :: 0 <= i < |table| ==> table[i].id != id
    ensures r.Some? ==> exists i :: 0 <= i < |table| && table[i] == r.value
                                    && (forall j :: 0 <= j < i ==> table[j].id != id)
    ensures r.Some? ==> r.value.id == id
  {
    if table == [] then None
    else if table[0].id == id then Some(table[0])
    else
      var r := FindById(table[1..], id);
      assert r.Some? ==> exists i :: 0 <= i < |table| && table[i] == r.value
                                     && (forall j :: 0 <= j < i ==> table[j].id != id) by {
        if r.Some? {
          var k :| 0 <= k < |table[1..]| && table[1..][k] == r.value
                   && (forall j :: 0 <= j < k ==> table[1..][j].id != id);
          assert table[k + 1] == r.value;
          assert forall j :: 0 <= j < k + 1 ==> table[j].id != id by {
            forall j | 0 <= j < k + 1 ensures table[j].id != id {
              if j > 0 {
                assert table[j] == table[1..][j - 1];
              }
            }
          }
        }
      }
      r
  }

  /** `getProjectById`: the lookup over the `projects` table. */
  function GetProjectById(id: string): (r: Option<ProjectDetail>)
    ensures r.None? <==> forall i :: 0 <= i < |Projects| ==> Projects[i].id != id
    ensures r.Some? ==> r.value in Projects && r.value.id == id
  {
    FindById(Projects, id)
  }

  /** With distinct ids, the entry the lookup finds is the only one with that id. */
  lemma FoundIsUnique(table: seq<ProjectDetail>, id: string, k: nat)
    requires DistinctIds(table)
    requires k < |table| && table[k].id == id
    ensures FindById(table, id) == Some(table[k])
  {
    var r := FindById(table, id);
    var i :| 0 <= i < |table| && table[i] == r.value && (forall j :: 0 <= j < i ==> table[j].id != id);
    assert i == k;
  }

  /** Round trip: looking a stored entry up by its own id gives that entry back. */
  lemma FindRoundTrip(table: seq<ProjectDetail>)
    requires DistinctIds(table)
    ensures forall k :: 0 <= k < |table| ==> FindById(table, table[k].id) == Some(table[k])
  {
    forall k | 0 <= k < |table| ensures FindById(table, table[k].id) == Some(table[k]) {
      FoundIsUnique(table, table[k].id, k);
    }
  }

  /** The four ids of the table, which are pairwise distinct. */
  lemma ProjectIds()
    ensures |Projects| == 4
    ensures Projects[0].id == "chess-llm-benchmark" && Projects[1].id == "geegees-intramural"
    ensures Projects[2].id == "ledgerglass" && Projects[3].id == "nlp-phishing-detection"
    ensures DistinctIds(Projects)
  {
    assert |Projects| == 4;
    assert Projects[0].id[0] == 'c' && Projects[1].id[0] == 'g';
    assert Projects[2].id[0] == 'l' && Projects[3].id[0] == 'n';
  }

  /** Every project in the table is found by its own id. */
  lemma ProjectRoundTrip(k: nat)
    requires k < |Projects|
    ensures GetProjectById(Projects[k].id) == Some(Projects[k])
  {
    ProjectIds();
    FoundIsUnique(Projects, Projects[k].id, k);
  }

  /** An id that is not in the table, such as a mistyped one, finds nothing. */
  lemma UnknownIdExample()
    ensures GetProjectById("chess").None?
  {
    ProjectIds();
  }
}
