// The project configuration read from forge.toml: its sections, the
// defaults of the fields a file may leave out, language validation, the
// per-language source directory and entry point, and loading. The TOML
// syntax itself is not modelled: a file arrives already split into its
// sections and keys, each key present or absent.

module Config {
  import opened Errors
  import opened Paths
  import Langs

  // Defaults of the fields a file may leave out.
  const DefaultVersion: string := "0.1.0"
  const DefaultOutputDir: string := "build"
  const DefaultJavaSource: string := "src/main/java"
  const DefaultKotlinSource: string := "src/main/kotlin"
  const DefaultPythonSource: string := "src"
  const DefaultJavaTarget: string := "17"

  datatype ProjectConfig = ProjectConfig(name: string, version: string, lang: string,
                                         description: string, outputDir: string)
  datatype JavaConfig = JavaConfig(source: string, target: string, mainClass: Option<string>)
  datatype KotlinConfig = KotlinConfig(source: string, jvmTarget: string, mainClass: Option<string>)
  datatype PythonConfig = PythonConfig(source: string, mainScript: Option<string>, pythonVersion: Option<string>)
  datatype TaskConfig = TaskConfig(command: string, dependsOn: seq<string>, description: string)

  /** `ForgeConfig`: the project section, the optional language sections,
      the declared dependencies (key to version) and custom tasks. */
  datatype ForgeConfig = ForgeConfig(project: ProjectConfig, java: Option<JavaConfig>, kotlin: Option<KotlinConfig>,
                                     python: Option<PythonConfig>, dependencies: map<string, string>,
                                     tasks: map<string, TaskConfig>)

  // The file as written: every key that has a default may be missing.

  datatype RawProject = RawProject(name: string, version: Option<string>, lang: string,
                                   description: Option<string>, outputDir: Option<string>)
  datatype RawJava = RawJava(source: Option<string>, target: Option<string>, mainClass: Option<string>)
  datatype RawKotlin = RawKotlin(source: Option<string>, jvmTarget: Option<string>, mainClass: Option<string>)
  datatype RawPython = RawPython(source: Option<string>, mainScript: Option<string>, pythonVersion: Option<string>)
  datatype RawTask = RawTask(command: string, dependsOn: Option<seq<string>>, description: Option<string>)
  datatype RawConfig = RawConfig(project: RawProject, java: Option<RawJava>, kotlin: Option<RawKotlin>,
                                 python: Option<RawPython>, dependencies: Option<map<string, string>>,
                                 tasks: Option<map<string, RawTask>>)

  function OrElse(v: Option<string>, default: string): (r: string)
    ensures v.Some? ==> r == v.value
    ensures v.None? ==> r == default
  {
    if v.Some? then v.value else default
  }

  /** The configuration a file denotes: each missing key takes its default
      (`default_version`, `default_output_dir`, the per-language source
      directories, "17" for both JVM targets, and empty text, lists and
      maps elsewhere); a missing language section stays missing. */
  function FromRaw(raw: RawConfig): (c: ForgeConfig)
    ensures c.project.name == raw.project.name && c.project.lang == raw.project.lang
    ensures c.project.version == OrElse(raw.project.version, DefaultVersion)
    ensures c.project.outputDir == OrElse(raw.project.outputDir, DefaultOutputDir)
    ensures c.java.Some? <==> raw.java.Some?
    ensures c.kotlin.Some? <==> raw.kotlin.Some?
    ensures c.python.Some? <==> raw.python.Some?
    ensures c.java.Some? ==> c.java.value.source == OrElse(raw.java.value.source, DefaultJavaSource) &&
                             c.java.value.target == OrElse(raw.java.value.target, DefaultJavaTarget)
    ensures c.kotlin.Some? ==> c.kotlin.value.source == OrElse(raw.kotlin.value.source, DefaultKotlinSource) &&
                               c.kotlin.value.jvmTarget == OrElse(raw.kotlin.value.jvmTarget, DefaultJavaTarget)
    ensures c.python.Some? ==> c.python.value.source == OrElse(raw.python.value.source, DefaultPythonSource)
    ensures c.dependencies.Keys == (if raw.dependencies.Some? then raw.dependencies.value.Keys else {})
    ensures c.tasks.Keys == (if raw.tasks.Some? then raw.tasks.value.Keys else {})
  {
    var p := raw.project;
    ForgeConfig(
      ProjectConfig(p.name, OrElse(p.version, DefaultVersion), p.lang, OrElse(p.description, ""),
                    OrElse(p.outputDir, DefaultOutputDir)),
      if raw.java.Some? then
        Some(JavaConfig(OrElse(raw.java.value.source, DefaultJavaSource),
                        OrElse(raw.java.value.target, DefaultJavaTarget), raw.java.value.mainClass))
      else None,
      if raw.kotlin.Some? then
        Some(KotlinConfig(OrElse(raw.kotlin.value.source, DefaultKotlinSource),
                          OrElse(raw.kotlin.value.jvmTarget, DefaultJavaTarget), raw.kotlin.value.mainClass))
      else None,
      if raw.python.Some? then
        Some(PythonConfig(OrElse(raw.python.value.source, DefaultPythonSource),
                          raw.python.value.mainScript, raw.python.value.pythonVersion))
      else None,
      if raw.dependencies.Some? then raw.dependencies.value else map[],
      if raw.tasks.Some? then
        map name | name in raw.tasks.value ::
          TaskConfig(raw.tasks.value[name].command,
                     if raw.tasks.value[name].dependsOn.Some? then raw.tasks.value[name].dependsOn.value else [],
                     OrElse(raw.tasks.value[name].description, ""))
      else map[])
  }

  predicate Supported(lang: string)
  {
    lang == "java" || lang == "kotlin" || lang == "python"
  }

  /** `validate`: only the language is checked; a language whose section
      is missing only draws a warning. */
  function Validate(c: ForgeConfig): (r: Result<()>)
    ensures r.Ok? <==> Supported(c.project.lang)
    ensures r.Err? ==> r.error == UnsupportedLanguage(c.project.lang)
  {
    match c.project.lang
    case "java" => Ok(())
    case "kotlin" => Ok(())
    case "python" => Ok(())
    case other => Err(UnsupportedLanguage(other))
  }

  /** The sample files `generate_template` hands out, one per language. */
  datatype Templates = Templates(java: string, kotlin: string, python: string)

  /** `generate_template`: the sample file of a supported language. */
  function GenerateTemplate(lang: string, templates: Templates): (r: Result<string>)
    ensures r.Ok? <==> Supported(lang)
    ensures r.Err? ==> r.error == UnsupportedLanguage(lang)
    ensures lang == "java" ==> r == Ok(templates.java)
    ensures lang == "kotlin" ==> r == Ok(templates.kotlin)
    ensures lang == "python" ==> r == Ok(templates.python)
  {
    match lang
    case "java" => Ok(templates.java)
    case "kotlin" => Ok(templates.kotlin)
    case "python" => Ok(templates.python)
    case other => Err(UnsupportedLanguage(other))
  }

  /** The languages a configuration may name, the languages a template
      exists for and the languages with a table of tracked extensions are
      the same three. */
  lemma SupportedEverywhere(c: ForgeConfig, templates: Templates)
    ensures Validate(c).Ok? <==> GenerateTemplate(c.project.lang, templates).Ok?
    ensures Validate(c).Ok? <==> Langs.ExtensionsForLang(c.project.lang) != []
  {
  }

  /** `source_dir`: the `source` of the project language's section, the
      language's default without that section, and "src" for any other
      language. */
  function SourceDir(c: ForgeConfig): (r: string)
    ensures c.project.lang == "java" ==> r == (if c.java.Some? then c.java.value.source else DefaultJavaSource)
    ensures c.project.lang == "kotlin" ==> r == (if c.kotlin.Some? then c.kotlin.value.source else DefaultKotlinSource)
    ensures c.project.lang == "python" ==> r == (if c.python.Some? then c.python.value.source else DefaultPythonSource)
    ensures !Supported(c.project.lang) ==> r == "src"
  {
    match c.project.lang
    case "java" => if c.java.Some? then c.java.value.source else DefaultJavaSource
    case "kotlin" => if c.kotlin.Some? then c.kotlin.value.source else DefaultKotlinSource
    case "python" => if c.python.Some? then c.python.value.source else DefaultPythonSource
    case _ => "src"
  }

  /** A file that does not set the source directory of its language, with
      or without the language's section, gets the language's default. */
  lemma SourceDirDefault(raw: RawConfig)
    ensures raw.project.lang == "java" && (raw.java.None? || raw.java.value.source.None?) ==>
              SourceDir(FromRaw(raw)) == "src/main/java"
    ensures raw.project.lang == "kotlin" && (raw.kotlin.None? || raw.kotlin.value.source.None?) ==>
              SourceDir(FromRaw(raw)) == "src/main/kotlin"
    ensures raw.project.lang == "python" && (raw.python.None? || raw.python.value.source.None?) ==>
              SourceDir(FromRaw(raw)) == "src"
    ensures raw.project.lang == "java" && raw.java.Some? && raw.java.value.source.Some? ==>
              SourceDir(FromRaw(raw)) == raw.java.value.source.value
  {
  }

  /** `main_entry`: the main class for Java and Kotlin, the main script for
      Python, each only when the section is present; nothing for any other
      language. */
  function MainEntry(c: ForgeConfig): (r: Option<string>)
    ensures r.Some? ==> Supported(c.project.lang)
    ensures c.project.lang == "java" ==> r == (if c.java.Some? then c.java.value.mainClass else None)
    ensures c.project.lang == "kotlin" ==> r == (if c.kotlin.Some? then c.kotlin.value.mainClass else None)
    ensures c.project.lang == "python" ==> r == (if c.python.Some? then c.python.value.mainScript else None)
  {
    match c.project.lang
    case "java" => if c.java.Some? then c.java.value.mainClass else None
    case "kotlin" => if c.kotlin.Some? then c.kotlin.value.mainClass else None
    case "python" => if c.python.Some? then c.python.value.mainScript else None
    case _ => None
  }

  /** The configuration file of a project as found on disk. */
  datatype ConfigFile = Absent | Unreadable(message: string) | Malformed(message: string) | Parsed(raw: RawConfig)

  function ConfigPath(projectDir: string): string
  {
    JoinPath(projectDir, "forge.toml")
  }

  /** `ForgeConfig::load`: a missing file, an unreadable file and a file
      that is not a configuration are errors; a configuration is returned
      only once it validates. */
  function Load(projectDir: string, file: ConfigFile): (r: Result<ForgeConfig>)
    ensures file.Absent? ==> r == Err(ConfigNotFound(ConfigPath(projectDir)))
    ensures file.Unreadable? ==> r == Err(IoError(ConfigPath(projectDir), file.message))
    ensures file.Malformed? ==> r == Err(ConfigParseError(file.message))
    ensures r.Ok? ==> file.Parsed? && r.value == FromRaw(file.raw) && Validate(r.value).Ok?
    ensures file.Parsed? && r.Err? ==> r.error == UnsupportedLanguage(file.raw.project.lang)
  {
    match file
    case Absent => Err(ConfigNotFound(ConfigPath(projectDir)))
    case Unreadable(message) => Err(IoError(ConfigPath(projectDir), message))
    case Malformed(message) => Err(ConfigParseError(message))
    case Parsed(raw) =>
      var c := FromRaw(raw);
      match Validate(c)
      case Err(e) => Err(e)
      case Ok(_) => Ok(c)
  }

  /** A file is loaded exactly when it parses and names a supported
      language. */
  lemma LoadSucceeds(projectDir: string, file: ConfigFile)
    ensures Load(projectDir, file).Ok? <==> file.Parsed? && Supported(file.raw.project.lang)
  {
  }
}
