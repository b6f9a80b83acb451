/**
 * The kubernetes agent's choice between Helm and `kubectl apply` once the
 * manifests are generated, and the commands of that step.
 */
module Kubernetes {
  import opened Wrappers
  import opened Text
  import opened Naming
  import opened Paths
  import opened Gate

  /** A generated name that marks a Helm chart (case-sensitive substrings). */
  predicate IsHelmFile(name: string) {
    Contains(name, "Chart.yaml") || Contains(name, "values.yaml")
  }

  /** Helm is used when some generated name marks a chart. */
  predicate IsHelmChart(names: seq<string>) {
    Find(names, IsHelmFile).Some?
  }

  lemma HelmIff(names: seq<string>)
    ensures IsHelmChart(names) <==> exists j :: 0 <= j < |names| && IsHelmFile(names[j])
  {
  }

  /** The test is case-sensitive: a lowercase "chart.yaml" alone is applied with kubectl. */
  lemma LowercaseChartNotHelm()
    ensures !IsHelmChart(["chart.yaml"])
  {
    assert 'C' !in "chart.yaml" && 'v' !in "chart.yaml";
    NotContainsByChar("chart.yaml", "Chart.yaml", 0);
    NotContainsByChar("chart.yaml", "values.yaml", 0);
    assert !IsHelmFile(["chart.yaml"][0]);
  }

  predicate IsYaml(name: string) {
    EndsWith(name, ".yaml") || EndsWith(name, ".yml")
  }

  /** The manifests `kubectl apply` receives: each YAML name joined to the project directory, in order. */
  function YamlPaths(names: seq<string>, dir: string): seq<string>
    decreases |names|
  {
    if names == [] then []
    else
      var last := names[|names| - 1];
      YamlPaths(names[..|names| - 1], dir) + (if IsYaml(last) then [PathJoin(dir, last)] else [])
  }

  /** The loop that collects `yaml_files`. */
  method CollectYaml(names: seq<string>, dir: string) returns (yamlFiles: seq<string>)
    ensures yamlFiles == YamlPaths(names, dir)
  {
    yamlFiles := [];
    for i := 0 to |names|
      invariant yamlFiles == YamlPaths(names[..i], dir)
    {
      assert names[..i + 1][..i] == names[..i];
      if EndsWith(names[i], ".yaml") || EndsWith(names[i], ".yml") {
        yamlFiles := yamlFiles + [PathJoin(dir, names[i])];
      }
    }
    assert names[..|names|] == names;
  }

  lemma {:induction false} YamlPathsAppend(a: seq<string>, b: seq<string>, dir: string)
    ensures YamlPaths(a + b, dir) == YamlPaths(a, dir) + YamlPaths(b, dir)
    decreases |b|
  {
    if b == [] {
      assert a + b == a;
    } else {
      assert (a + b)[..|a + b| - 1] == a + b[..|b| - 1];
      YamlPathsAppend(a, b[..|b| - 1], dir);
    }
  }

  /** Every applied path is a YAML name joined to the directory, and there are no more paths than names. */
  lemma {:induction false} YamlPathsFrom(names: seq<string>, dir: string)
    ensures |YamlPaths(names, dir)| <= |names|
    ensures forall k :: 0 <= k < |YamlPaths(names, dir)| ==>
      exists j :: 0 <= j < |names| && IsYaml(names[j]) && YamlPaths(names, dir)[k] == PathJoin(dir, names[j])
    decreases |names|
  {
    if names == [] {
      assert YamlPaths(names, dir) == [];
    } else {
      var init := names[..|names| - 1];
      var n := |names| - 1;
      YamlPathsFrom(init, dir);
      assert YamlPaths(names, dir) == YamlPaths(init, dir) + (if IsYaml(names[n]) then [PathJoin(dir, names[n])] else []);
      forall k | 0 <= k < |YamlPaths(names, dir)|
        ensures exists j :: 0 <= j < |names| && IsYaml(names[j]) && YamlPaths(names, dir)[k] == PathJoin(dir, names[j])
      {
        if k < |YamlPaths(init, dir)| {
          assert YamlPaths(names, dir)[k] == YamlPaths(init, dir)[k];
          var j :| 0 <= j < |init| && IsYaml(init[j]) && YamlPaths(init, dir)[k] == PathJoin(dir, init[j]);
          assert init[j] == names[j];
        } else {
          assert YamlPaths(names, dir)[k] == PathJoin(dir, names[n]);
        }
      }
    }
  }

  /** A YAML name's path is among the applied paths. */
  lemma {:induction false} YamlPathsHas(names: seq<string>, dir: string, j: nat)
    requires j < |names| && IsYaml(names[j])
    ensures PathJoin(dir, names[j]) in YamlPaths(names, dir)
    decreases |names|
  {
    var init := names[..|names| - 1];
    var n := |names| - 1;
    var p := PathJoin(dir, names[j]);
    var r0 := YamlPaths(init, dir);
    if j < n {
      assert init[j] == names[j];
      YamlPathsHas(init, dir, j);
      assert p in r0;
      var k :| 0 <= k < |r0| && r0[k] == p;
      assert YamlPaths(names, dir) == r0 + (if IsYaml(names[n]) then [PathJoin(dir, names[n])] else []);
      assert YamlPaths(names, dir)[k] == p;
    } else {
      assert YamlPaths(names, dir) == r0 + [p];
      assert YamlPaths(names, dir)[|r0|] == p;
    }
  }

  /** `project_name.replace("_", "-").lower()` */
  function ChartName(projectName: string): (r: string)
    ensures |r| == |projectName|
    ensures forall k :: 0 <= k < |r| ==> r[k] != '_' && !('A' <= r[k] <= 'Z')
    ensures forall k :: 0 <= k < |r| ==> r[k] == (if projectName[k] == '_' then '-' else LowerChar(projectName[k]))
  {
    Lower(seq(|projectName|, k requires 0 <= k < |projectName| => if projectName[k] == '_' then '-' else projectName[k]))
  }

  /** `helm version`, the probe run before installing, passes the kubernetes gate. */
  lemma HelmVersionAllowed()
    ensures CheckSafety("helm version", Denylist, KubernetesCommands).safe
  {
    HelmVersionDenyFree();
    HelmVersionWords();
    SafetyIff("helm version", Denylist, KubernetesCommands);
  }

  lemma HelmVersionDenyFree()
    ensures forall k :: 0 <= k < |Denylist| ==> !Contains("helm version", Denylist[k])
  {
    var c := "helm version";
    DenyFreeByChars(c);
  }

  lemma HelmVersionWords()
    ensures Words("helm version") != [] && Words("helm version")[0] == "helm"
  {
    var w, rest := "helm", " version";
    assert w + rest == "helm version";
    assert NoSpace(w) by {
      assert w[0] == 'h' && w[1] == 'e' && w[2] == 'l' && w[3] == 'm';
    }
    FirstWord(w, rest);
  }
}
