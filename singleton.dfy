/**
 * The `singleton` class decorator: decorating a class replaces it by a
 * `get_instance` closure that owns a cache `instances`, builds the instance
 * on the first call and hands out that same object on every later call.
 */
module Singleton {
  import opened Wrappers

  /** An object built by a decorated class, remembering its class and the arguments it was built with. */
  class Instance {
    const cls: string
    const args: seq<string>

    constructor (cls: string, args: seq<string>)
      ensures this.cls == cls && this.args == args
    {
      this.cls := cls;
      this.args := args;
    }
  }

  /** The closure `get_instance` produced by `singleton(cls)`, with its own cache. */
  class SingletonFactory {
    const cls: string
    var instances: map<string, Instance>
    /** How many times the decorated constructor has run to completion. */
    ghost var constructions: nat

    /** The cache holds, at most, one instance of `cls`, and a build completed exactly when it does. */
    ghost predicate Valid()
      reads this
    {
      && instances.Keys <= {cls}
      && (cls in instances ==> constructions == 1 && instances[cls].cls == cls)
      && (cls !in instances ==> constructions == 0)
    }

    /** Decorating `cls`: a fresh, empty cache. */
    constructor (cls: string)
      ensures Valid()
      ensures this.cls == cls && instances == map[] && constructions == 0
    {
      this.cls := cls;
      instances := map[];
      constructions := 0;
    }

    /**
     * `get_instance(*args)`: on a miss, build the instance and cache it; when
     * the constructor raises (`buildRaises`), nothing is cached and the
     * exception propagates, so the next call tries again. On a hit, return the
     * cached object and change nothing.
     */
    method GetInstance(args: seq<string>, buildRaises: bool) returns (r: Option<Instance>)
      requires Valid()
      modifies this
      ensures Valid()
      ensures constructions <= 1
      ensures r.Some? ==> cls in instances && r.value == instances[cls] && r.value.cls == cls
      ensures old(cls in instances) ==>
        r == Some(old(instances[cls])) && instances == old(instances) && constructions == old(constructions)
      ensures old(cls !in instances) && buildRaises ==>
        r.None? && instances == old(instances) && constructions == old(constructions)
      ensures old(cls !in instances) && !buildRaises ==>
        r.Some? && fresh(r.value) && r.value.args == args && instances == map[cls := r.value] && constructions == 1
    {
      if cls !in instances {
        if buildRaises {
          return None;
        }
        var built := new Instance(cls, args);
        instances := instances[cls := built];
        constructions := constructions + 1;
      }
      r := Some(instances[cls]);
    }
  }

  /**
   * The two decorated repositories: each class gets its own instance, a second
   * call returns the first object, and the arguments of the second call are ignored.
   */
  method RepositorySingletons() returns (kernel: Instance, kernelAgain: Instance, knowledgeBase: Instance)
    ensures kernelAgain == kernel && kernel.args == []
    ensures kernel != knowledgeBase
    ensures kernel.cls == "KernelRepository" && knowledgeBase.cls == "KnowledgeBaseRepository"
  {
    var kernelFactory := new SingletonFactory("KernelRepository");
    var knowledgeBaseFactory := new SingletonFactory("KnowledgeBaseRepository");
    var k := kernelFactory.GetInstance([], false);
    var kb := knowledgeBaseFactory.GetInstance([], false);
    var again := kernelFactory.GetInstance(["ignored"], false);
    kernel, knowledgeBase, kernelAgain := k.value, kb.value, again.value;
  }

  /**
   * A constructor that raises leaves the cache empty: the next call builds
   * again, with its own arguments, and later calls return that instance.
   */
  method RetryAfterFailedBuild() returns (first: Option<Instance>, second: Option<Instance>, third: Option<Instance>)
    ensures first.None?
    ensures second.Some? && second.value.args == ["retry"]
    ensures third == second
  {
    var factory := new SingletonFactory("KernelRepository");
    first := factory.GetInstance(["first"], true);
    second := factory.GetInstance(["retry"], false);
    third := factory.GetInstance(["later"], true);
  }
}
