/**
 * The list of repositories whose history has already been collected, and the
 * lookup that decides whether a repository is skipped.
 */
module RepoRegistry {

  /** One entry of the list: `{"owner": ..., "repo_name": ...}`. */
  datatype Repo = Repo(owner: string, repoName: string)

  /** Some entry names this owner AND this repository. */
  predicate Listed(repoList: seq<Repo>, owner: string, repoName: string)
  {
    exists i :: 0 <= i < |repoList| && repoList[i].owner == owner && repoList[i].repoName == repoName
  }

  /** `repo_already_existing`: scans the list and stops at the first entry
      matching both fields. An entry with the same repository name but another
      owner only triggers a console message, which is not modelled. */
  method RepoAlreadyExisting(owner: string, repoName: string, repoList: seq<Repo>) returns (existing: bool)
    ensures existing <==> Listed(repoList, owner, repoName)
  {
    for i := 0 to |repoList|
      invariant forall j :: 0 <= j < i ==> !(repoList[j].owner == owner && repoList[j].repoName == repoName)
    {
      var repo := repoList[i];
      if repo.owner == owner && repo.repoName == repoName {
        return true;
      }
    }
    return false;
  }

  /** The repositories collected so far. */
  const ProcessedRepos: seq<Repo> := [
    Repo("tensorflow", "tensorflow"),
    Repo("keras-team", "keras"),
    Repo("pytorch", "pytorch"),
    Repo("microsoft", "vscode"),
    Repo("microsoft", "PowerToys"),
    Repo("facebook", "react"),
    Repo("facebook", "react-native"),
    Repo("facebook", "create-react-app"),
    Repo("home-assistant", "core"),
    Repo("flutter", "flutter"),
    Repo("microsoftdocs", "azure-docs"),
    Repo("automatic1111", "stable-diffusion-webui"),
    Repo("vercel", "next.js"),
    Repo("langchain-ai", "langchain")
  ]

  /** Against the list of processed repositories: `microsoft/vscode` is found;
      a different owner's `core` is not, although `home-assistant/core` is
      listed. */
  lemma ProcessedReposLookups()
    ensures Listed(ProcessedRepos, "microsoft", "vscode")
    ensures Listed(ProcessedRepos, "home-assistant", "core")
    ensures !Listed(ProcessedRepos, "someone-else", "core")
  {
    assert ProcessedRepos[3] == Repo("microsoft", "vscode");
    assert ProcessedRepos[8] == Repo("home-assistant", "core");
  }
}
