/**
 * The encryption policy bound from `spring.web.encrypt.*`: the enable flag, the selected
 * encryptor class, and the cache held by this properties object, one instance per class.
 */
module Properties {
  import opened Encryptors

  /** An instance created by `BeanUtils.instantiateClass`; its identity is the reference. */
  class EncryptorInstance {
    const impl: EncryptorClass

    constructor (impl: EncryptorClass)
      ensures this.impl == impl
    {
      this.impl := impl;
    }
  }

  class WebEncryptProperties {
    /** `ENCRYPTOR_MAP`: class to the single instance created for it. */
    var encryptorMap: map<EncryptorClass, EncryptorInstance>
    var enable: bool
    var encryptor: EncryptorClass

    /** Every cached instance is an instance of the class it is cached under. */
    ghost predicate Valid()
      reads this
    {
      forall c :: c in encryptorMap ==> encryptorMap[c].impl == c
    }

    /** Defaults: disabled, SM4 selected, nothing cached yet. */
    constructor ()
      ensures Valid()
      ensures !enable && encryptor == SM4Encryptor && encryptorMap == map[]
    {
      encryptorMap := map[];
      enable := false;
      encryptor := SM4Encryptor;
    }

    /** `setEnable`. */
    method SetEnable(enable: bool)
      requires Valid()
      modifies this`enable
      ensures Valid()
      ensures this.enable == enable
    {
      this.enable := enable;
    }

    /** `setEncryptor`. */
    method SetEncryptor(encryptor: EncryptorClass)
      requires Valid()
      modifies this`encryptor
      ensures Valid()
      ensures this.encryptor == encryptor
    {
      this.encryptor := encryptor;
    }

    /**
     * `encryptor()`: `ENCRYPTOR_MAP.computeIfAbsent(encryptor, BeanUtils::instantiateClass)`.
     * The instance returned is of the selected class; it is the cached one if there is
     * one, otherwise a new one that is then cached. Nothing else changes.
     */
    method Encryptor() returns (instance: EncryptorInstance)
      requires Valid()
      modifies this`encryptorMap
      ensures Valid()
      ensures instance.impl == encryptor
      ensures encryptorMap == old(encryptorMap)[encryptor := instance]
      ensures encryptor in old(encryptorMap) ==> instance == old(encryptorMap)[encryptor]
      ensures encryptor !in old(encryptorMap) ==> fresh(instance)
    {
      if encryptor in encryptorMap {
        instance := encryptorMap[encryptor];
      } else {
        instance := new EncryptorInstance(encryptor);
        encryptorMap := encryptorMap[encryptor := instance];
      }
    }
  }

  /**
   * Two lookups with the same selection give the identical instance, even when the
   * selection was switched to another class and back in between.
   */
  method SwitchAwayAndBack(properties: WebEncryptProperties, other: EncryptorClass)
    returns (first: EncryptorInstance, second: EncryptorInstance)
    requires properties.Valid()
    modifies properties
    ensures properties.Valid()
    ensures first == second && first.impl == old(properties.encryptor)
    ensures properties.encryptor == old(properties.encryptor) && properties.enable == old(properties.enable)
  {
    var original := properties.encryptor;
    first := properties.Encryptor();
    properties.SetEncryptor(other);
    var _ := properties.Encryptor();
    properties.SetEncryptor(original);
    second := properties.Encryptor();
  }
}
